/**
 Frames on the wire, and that the parser reads back what was written (sections 5.2 and 5.3 of
 RFC 6455).
 */
module WebSocketFrames {
  import opened Bytes
  import opened WebSocketParsers

  datatype Frame = Frame(fin: bool, rsv: nat, opcode: nat, payload: seq<Byte>) {
    predicate Valid() { rsv < 8 && opcode < 16 && |payload| <= MAX_PAYLOAD_LENGTH }
    predicate IsControl() { opcode >= 8 }
  }

  /** The three ways to write a length; a sender may use a longer one than it needs. */
  datatype LengthForm = Short | Medium | Long

  predicate CanWrite(form: LengthForm, n: nat) {
    match form
    case Short => n < 126
    case Medium => n < 65536
    case Long => n <= MAX_PAYLOAD_LENGTH
  }

  function FirstByte(f: Frame): Byte
    requires f.Valid()
  {
    (if f.fin then 128 else 0) + f.rsv * 16 + f.opcode
  }

  /** The second byte and the bytes of the length that follow it. */
  function LengthBytes(form: LengthForm, n: nat, masked: bool): seq<Byte>
    requires CanWrite(form, n)
  {
    var m := if masked then 128 else 0;
    match form
    case Short => [m + n]
    case Medium => [m + 126] + ToBigEndian(n, 2)
    case Long => [m + 127] + ToBigEndian(n, 8)
  }

  /** A masked frame, as a client sends it. */
  function Encode(f: Frame, form: LengthForm, key: seq<Byte>): seq<Byte>
    requires f.Valid() && CanWrite(form, |f.payload|) && |key| == 4
  {
    [FirstByte(f)] + LengthBytes(form, |f.payload|, true) + key + Masked(f.payload, key, 0)
  }

  // ---------- feeding input in pieces ----------

  /** Reading `a` and then `b` is reading both at once. */
  lemma {:induction false} RunConcat(p: Parser, a: seq<Byte>, b: seq<Byte>)
    requires p.Valid()
    ensures Run(p, a + b) == Run(Run(p, a), b)
    ensures Taken(p, a + b) == Taken(p, a) + Taken(Run(p, a), b)
    decreases |a|
  {
    if a == [] {
      assert a + b == b;
    } else if !p.Stopped() {
      assert (a + b)[1..] == a[1..] + b;
      RunConcat(Feed(p, a[0]), a[1..], b);
    }
  }

  lemma RunOne(p: Parser, b: Byte)
    requires p.Valid() && !p.Stopped()
    ensures Run(p, [b]) == Feed(p, b) && Taken(p, [b]) == 1
  {
  }

  // ---------- the parts of a frame ----------

  function LengthSize(stage: Stage): nat { if stage == PayloadLen16 then 2 else 8 }

  /** The last bytes of a length. */
  lemma {:induction false} RunLength(p: Parser, bytes: seq<Byte>)
    requires p.Valid() && p.error == 0 && (p.stage == PayloadLen16 || p.stage == PayloadLen64)
    requires p.remain == |bytes|
    ensures var size := LengthSize(p.stage);
      var raw := p.raw[..size - |bytes|] + bytes + p.raw[size..];
      && Run(p, bytes) == WithLength(p.(raw := raw, remain := 0), BigEndian(raw[..size]))
      && Taken(p, bytes) == |bytes|
    decreases |bytes|
  {
    hide BigEndian, Run, Taken, Feed, WithLength;
    var size := LengthSize(p.stage);
    var raw := p.raw[..size - |bytes|] + bytes + p.raw[size..];
    var raw1 := p.raw[size - |bytes| := bytes[0]];
    FeedLength(p, bytes[0]);
    RunNext(p, bytes);
    var q := Feed(p, bytes[0]);
    if |bytes| == 1 {
      assert raw1 == raw;
      RunEnds(q);
    } else {
      assert raw1[..size - |bytes| + 1] + bytes[1..] + raw1[size..] == raw;
      RunLength(q, bytes[1..]);
    }
  }

  lemma FeedLength(p: Parser, b: Byte)
    requires p.Valid() && p.error == 0 && (p.stage == PayloadLen16 || p.stage == PayloadLen64)
    ensures var size := LengthSize(p.stage);
      var raw := p.raw[size - p.remain := b];
      Feed(p, b) == if p.remain == 1 then WithLength(p.(raw := raw, remain := 0), BigEndian(raw[..size]))
                    else p.(raw := raw, remain := p.remain - 1)
  {
    hide BigEndian, WithLength;
    assert p.raw[8 - p.remain := b][..8] == p.raw[8 - p.remain := b];
  }

  lemma RunNext(p: Parser, buf: seq<Byte>)
    requires p.Valid() && !p.Stopped() && buf != []
    ensures Run(p, buf) == Run(Feed(p, buf[0]), buf[1..]) && Taken(p, buf) == 1 + Taken(Feed(p, buf[0]), buf[1..])
  {
  }

  lemma RunEnds(p: Parser)
    requires p.Valid()
    ensures Run(p, []) == p && Taken(p, []) == 0
  {
  }

  /** The last bytes of the masking key. */
  lemma {:induction false} RunKey(p: Parser, key: seq<Byte>)
    requires p.Valid() && p.error == 0 && p.stage == MaskingKey && p.remain == |key|
    ensures Run(p, key) == p.(mask := p.mask[..4 - |key|] + key,
                              stage := if p.length != 0 then PayloadData else Done, remain := p.length)
    ensures Taken(p, key) == |key|
    decreases |key|
  {
    var q := Feed(p, key[0]);
    var mask1 := p.mask[4 - |key| := key[0]];
    if |key| == 1 {
      assert mask1 == p.mask[..4 - |key|] + key;
      assert Run(p, key) == q;
    } else {
      assert q == p.(mask := mask1, remain := p.remain - 1);
      assert mask1[..4 - |key| + 1] + key[1..] == p.mask[..4 - |key|] + key;
      RunKey(q, key[1..]);
    }
  }

  /** The last bytes of a payload. */
  lemma {:induction false} RunPayload(p: Parser, payload: seq<Byte>)
    requires p.Valid() && p.error == 0 && p.stage == PayloadData && p.remain == |payload|
    ensures var bytes := Masked(payload, p.mask, p.length - p.remain);
      && Run(p, bytes) == p.(data := p.data + payload, remain := 0, stage := Done)
      && Taken(p, bytes) == |payload|
    decreases |payload|
  {
    hide Xor;
    var offset := p.length - p.remain;
    var bytes := Masked(payload, p.mask, offset);
    XorTwice(payload[0], p.mask[offset % 4]);
    var q := Feed(p, bytes[0]);
    assert bytes[1..] == Masked(payload[1..], p.mask, offset + 1);
    if |payload| == 1 {
      assert payload == [payload[0]];
      assert Run(p, bytes) == q;
    } else {
      RunPayload(q, payload[1..]);
      assert p.data + [payload[0]] + payload[1..] == p.data + payload;
    }
  }

  lemma {:induction false} MaskedEmpty(key: seq<Byte>, offset: nat)
    requires |key| == 4
    ensures Masked([], key, offset) == []
  {
  }

  /** A length that is written in `size` bytes behind the second byte. */
  lemma RunExtended(p: Parser, second: Byte, n: nat, size: nat)
    requires p.Valid() && p.error == 0 && p.stage == MaskAndLen && n < Pow(256, size)
    requires (second == 254 && size == 2) || (second == 255 && size == 8)
    ensures var bytes := [second] + ToBigEndian(n, size);
      var q := Run(p, bytes);
      && Taken(p, bytes) == |bytes|
      && q == WithLength(p.(stage := if size == 2 then PayloadLen16 else PayloadLen64, raw := q.raw, remain := 0), n)
  {
    hide BigEndian, ToBigEndian, Pow;
    var more := ToBigEndian(n, size);
    RunConcat(p, [second], more);
    RunOne(p, second);
    var q := Feed(p, second);
    BigEndianRoundTrip(n, size);
    RunLength(q, more);
    assert (q.raw[..0] + more + q.raw[size..])[..size] == more;
  }

  /** Whichever form the length is written in, the parser goes on to the masking key with it. */
  lemma RunLengthBytes(p: Parser, form: LengthForm, n: nat)
    requires p.Valid() && p.error == 0 && p.stage == MaskAndLen && CanWrite(form, n)
    ensures var bytes := LengthBytes(form, n, true);
      var q := Run(p, bytes);
      && Taken(p, bytes) == |bytes|
      && q == p.(stage := MaskingKey, remain := 4, length := n, raw := q.raw)
  {
    hide ToBigEndian, Run, Taken;
    PowersOf256();
    match form
    case Short => RunOne(p, 128 + n);
    case Medium => RunExtended(p, 254, n, 2);
    case Long => RunExtended(p, 255, n, 8);
  }

  function Header(f: Frame, form: LengthForm, key: seq<Byte>): seq<Byte>
    requires f.Valid() && CanWrite(form, |f.payload|)
  {
    [FirstByte(f)] + LengthBytes(form, |f.payload|, true) + key
  }

  /** The parser behind a header: it expects the payload, if there is one. */
  lemma RunHeader(p: Parser, f: Frame, form: LengthForm, key: seq<Byte>)
    requires p.Valid() && p.stage == FinAndOpcode && p.error == 0
    requires f.Valid() && CanWrite(form, |f.payload|) && |key| == 4
    ensures var n := |f.payload|;
      var q := Run(p, Header(f, form, key));
      && q == p.(fin := f.fin, rsv := f.rsv, opcode := f.opcode, length := n, raw := q.raw, mask := key, remain := n,
                 stage := if n != 0 then PayloadData else Done)
      && Taken(p, Header(f, form, key)) == |Header(f, form, key)|
  {
    hide LengthBytes, Feed, Run, Taken, FirstByte;
    var a, b := [FirstByte(f)], LengthBytes(form, |f.payload|, true);
    FirstByteParses(p, f);
    RunLengthBytes(Run(p, a), form, |f.payload|);
    var p2 := Run(Run(p, a), b);
    RunKey(p2, key);
    assert p2.mask[..0] + key == key;
    RunConcat(p, a, b);
    RunConcat(p, a + b, key);
  }

  /** The parser reads exactly the bytes of one frame, whatever follows, and gets the frame. */
  lemma FrameParses(p: Parser, f: Frame, form: LengthForm, key: seq<Byte>, rest: seq<Byte>)
    requires p.Valid() && p.stage == FinAndOpcode && p.error == 0 && p.data == []
    requires f.Valid() && CanWrite(form, |f.payload|) && |key| == 4
    ensures var q := Run(p, Encode(f, form, key) + rest);
      && q.stage == Done && q.error == 0
      && q.fin == f.fin && q.rsv == f.rsv && q.opcode == f.opcode && q.data == f.payload
    ensures Taken(p, Encode(f, form, key) + rest) == |Encode(f, form, key)|
  {
    hide Header, LengthBytes, Masked, Feed, Run, Taken, FirstByte;
    var a, d := Header(f, form, key), Masked(f.payload, key, 0);
    EncodeIs(f, form, key);
    RunHeader(p, f, form, key);
    var p1 := Run(p, a);
    if f.payload == [] {
      MaskedEmpty(key, 0);
      RunStopped(p1, d);
    } else {
      RunPayload(p1, f.payload);
      assert [] + f.payload == f.payload;
    }
    RunConcat(p, a, d);
    RunConcat(p, a + d, rest);
    RunStopped(Run(p, a + d), rest);
  }

  lemma EncodeIs(f: Frame, form: LengthForm, key: seq<Byte>)
    requires f.Valid() && CanWrite(form, |f.payload|) && |key| == 4
    ensures Encode(f, form, key) == Header(f, form, key) + Masked(f.payload, key, 0)
  {
  }

  lemma RunStopped(p: Parser, buf: seq<Byte>)
    requires p.Valid() && p.Stopped()
    ensures Run(p, buf) == p && Taken(p, buf) == 0
  {
  }

  lemma FirstByteParses(p: Parser, f: Frame)
    requires p.Valid() && p.stage == FinAndOpcode && p.error == 0 && f.Valid()
    ensures Run(p, [FirstByte(f)]) == p.(fin := f.fin, rsv := f.rsv, opcode := f.opcode, stage := MaskAndLen)
    ensures Taken(p, [FirstByte(f)]) == 1
  {
  }

  // ---------- examples of section 5.7 of RFC 6455 ----------

  const HELLO: seq<Byte> := [0x48, 0x65, 0x6C, 0x6C, 0x6F]
  const HELLO_KEY: seq<Byte> := [0x37, 0xFA, 0x21, 0x3D]
  const MASKED_HELLO: seq<Byte> := [0x81, 0x85, 0x37, 0xFA, 0x21, 0x3D, 0x7F, 0x9F, 0x4D, 0x51, 0x58]

  /** The five exclusive ors, from the highest bits down. */
  lemma HelloXors()
    ensures Xor(0x48, 0x37) == 0x7F && Xor(0x65, 0xFA) == 0x9F && Xor(0x6C, 0x21) == 0x4D
  {
    assert XorBits(1, 0, 2) == 1 && XorBits(2, 1, 3) == 3 && XorBits(4, 3, 4) == 7;
    assert XorBits(9, 6, 5) == 15 && XorBits(18, 13, 6) == 31 && XorBits(36, 27, 7) == 63;
    assert XorBits(1, 3, 2) == 2 && XorBits(3, 7, 3) == 4 && XorBits(6, 15, 4) == 9;
    assert XorBits(12, 31, 5) == 19 && XorBits(25, 62, 6) == 39 && XorBits(50, 125, 7) == 79;
    assert XorBits(1, 0, 2) == 1 && XorBits(3, 1, 3) == 2 && XorBits(6, 2, 4) == 4;
    assert XorBits(13, 4, 5) == 9 && XorBits(27, 8, 6) == 19 && XorBits(54, 16, 7) == 38;
  }

  lemma HelloXorsToo()
    ensures Xor(0x6C, 0x3D) == 0x51 && Xor(0x6F, 0x37) == 0x58
  {
    assert XorBits(1, 0, 2) == 1 && XorBits(3, 1, 3) == 2 && XorBits(6, 3, 4) == 5;
    assert XorBits(13, 7, 5) == 10 && XorBits(27, 15, 6) == 20 && XorBits(54, 30, 7) == 40;
    assert XorBits(1, 0, 2) == 1 && XorBits(3, 1, 3) == 2 && XorBits(6, 3, 4) == 5;
    assert XorBits(13, 6, 5) == 11 && XorBits(27, 13, 6) == 22 && XorBits(55, 27, 7) == 44;
  }

  lemma MaskedNext(data: seq<Byte>, key: seq<Byte>, offset: nat)
    requires |key| == 4 && data != []
    ensures Masked(data, key, offset) == [Xor(data[0], key[offset % 4])] + Masked(data[1..], key, offset + 1)
  {
  }

  lemma HelloMasked()
    ensures Masked(HELLO, HELLO_KEY, 0) == [0x7F, 0x9F, 0x4D, 0x51, 0x58]
  {
    hide Xor, Masked;
    HelloXors();
    HelloXorsToo();
    MaskedNext(HELLO, HELLO_KEY, 0);
    MaskedNext(HELLO[1..], HELLO_KEY, 1);
    MaskedNext(HELLO[2..], HELLO_KEY, 2);
    MaskedNext(HELLO[3..], HELLO_KEY, 3);
    MaskedNext(HELLO[4..], HELLO_KEY, 4);
    assert HELLO[1..][1..] == HELLO[2..] && HELLO[2..][1..] == HELLO[3..] && HELLO[3..][1..] == HELLO[4..];
    assert HELLO[4..][1..] == [];
    MaskedEmpty(HELLO_KEY, 5);
  }

  /** A single masked text frame that contains "Hello". */
  lemma HelloParses(p: Parser, rest: seq<Byte>)
    requires p.Valid() && p.stage == FinAndOpcode && p.error == 0 && p.data == []
    ensures var q := Run(p, MASKED_HELLO + rest);
      q.stage == Done && q.error == 0 && q.fin && q.rsv == 0 && q.opcode == 1 && q.data == HELLO
    ensures Taken(p, MASKED_HELLO + rest) == |MASKED_HELLO|
  {
    hide Masked, Run, Taken;
    var f := Frame(true, 0, 1, HELLO);
    HelloMasked();
    assert Encode(f, Short, HELLO_KEY) == MASKED_HELLO;
    FrameParses(p, f, Short, HELLO_KEY, rest);
  }

  /** How 256 bytes and 64 kilobytes of binary data start, masked and unmasked. */
  lemma LongHeaders()
    ensures LengthBytes(Medium, 256, false) == [0x7E, 0x01, 0x00]
    ensures LengthBytes(Medium, 256, true) == [0xFE, 0x01, 0x00]
    ensures LengthBytes(Long, 65536, false) == [0x7F, 0, 0, 0, 0, 0, 1, 0, 0]
    ensures LengthBytes(Long, 65536, true) == [0xFF, 0, 0, 0, 0, 0, 1, 0, 0]
    ensures forall data: seq<Byte> :: |data| == 256 ==> FirstByte(Frame(true, 0, 2, data)) == 0x82
  {
  }

  // ---------- what the parser refuses ----------

  lemma ErrorStays(p: Parser, a: seq<Byte>, rest: seq<Byte>)
    requires p.Valid() && Run(p, a).error != 0
    ensures Run(p, a + rest) == Run(p, a)
  {
    RunConcat(p, a, rest);
  }

  /** A frame without a mask is a protocol error, whatever its length and whatever follows. */
  lemma UnmaskedIsRefused(p: Parser, f: Frame, form: LengthForm, n: nat, rest: seq<Byte>)
    requires p.Valid() && p.stage == FinAndOpcode && p.error == 0 && f.Valid() && CanWrite(form, n)
    ensures Run(p, [FirstByte(f)] + LengthBytes(form, n, false) + rest).error == CLOSE_PROTOCOL_ERROR
  {
    hide FirstByte;
    var a, b := [FirstByte(f)], LengthBytes(form, n, false);
    var first, more := [b[0]], b[1..];
    assert b == first + more && a + b == a + first + more;
    FirstByteParses(p, f);
    RunConcat(p, a, first);
    RunOne(Run(p, a), b[0]);
    ErrorStays(p, a + first, more);
    ErrorStays(p, a + b, rest);
  }

  /** A length is too big exactly beyond the limit; nothing behind it is read then. */
  lemma LengthIsLimited(p: Parser, n: nat, rest: seq<Byte>)
    requires p.Valid() && p.stage == MaskAndLen && p.error == 0 && n < Pow(256, 8)
    ensures Run(p, [255] + ToBigEndian(n, 8)).error == if n > MAX_PAYLOAD_LENGTH then CLOSE_PAYLOAD_TOO_BIG else 0
    ensures var q := Run(p, [255] + ToBigEndian(n, 8)); q.length == n && q.remain == if n > MAX_PAYLOAD_LENGTH then 0 else 4
    ensures n > MAX_PAYLOAD_LENGTH ==>
      Run(p, [255] + ToBigEndian(n, 8) + rest) == Run(p, [255] + ToBigEndian(n, 8))
  {
    hide ToBigEndian, Run;
    RunExtended(p, 255, n, 8);
    if n > MAX_PAYLOAD_LENGTH {
      ErrorStays(p, [255] + ToBigEndian(n, 8), rest);
    }
  }
}
