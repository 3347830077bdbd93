/** SBWP framing: protocol.go's encodeMessage, decodeHeader and readMessage. */
module Frames {
  import opened Wrappers
  import opened Messages
  import opened Wire

  const HEADER_SIZE := 40
  const MAX_MESSAGE_SIZE := 1024 * 1024 * 1024
  const MAGIC: seq<byte> := [0x53, 0x42, 0x57, 0x50]
  const MAJOR: byte := 1
  const MINOR: byte := 1

  type uint32 = x: int | 0 <= x < 0x1_0000_0000
  type uint64 = x: int | 0 <= x < UINT64_LIMIT
  type Attachment = a: seq<byte> | |a| == 16 witness seq(16, _ => 0)

  datatype Header = Header(kind: byte, flags: byte, sequence: uint32, attachment: Attachment, txnId: uint64)

  datatype Frame = Frame(header: Header, body: seq<byte>)

  /** io.ReadFull tells a stream that ended at once from one that ended half way. */
  datatype ReadError = EndOfStream | UnexpectedEnd | BadHeaderLength | BadMagic | BadVersion | TooLarge

  // ----- the layout

  function Preamble(h: Header): (r: seq<byte>)
    ensures |r| == 8
  {
    MAGIC + [MAJOR, MINOR, h.kind, h.flags]
  }

  function EncodedHeader(h: Header, length: nat): (r: seq<byte>)
    ensures |r| == HEADER_SIZE
  {
    Preamble(h) + (LE(length, 4) + (LE(h.sequence, 4) + (h.attachment + LE(h.txnId, 8))))
  }

  function Encoded(f: Frame): seq<byte> {
    EncodedHeader(f.header, |f.body|) + f.body
  }

  function EncodedAll(fs: seq<Frame>): seq<byte> {
    if fs == [] then [] else Encoded(fs[0]) + EncodedAll(fs[1..])
  }

  method EncodeMessage(header: Header, payload: seq<byte>) returns (buf: array<byte>)
    ensures fresh(buf) && buf[..] == Encoded(Frame(header, payload))
  {
    ghost var goal := Encoded(Frame(header, payload));
    ghost var id := LE(header.txnId, 8) + payload;
    ghost var seqNo := LE(header.sequence, 4) + (header.attachment + id);
    ghost var rest := LE(|payload|, 4) + seqNo;
    buf := new byte[HEADER_SIZE + |payload|];
    Layout(header, payload);
    assert Filling(buf, 0, Preamble(header) + rest, goal);
    var offset := Put(buf, 0, Preamble(header), rest, goal);
    offset := PutNum(buf, offset, |payload|, 4, seqNo, goal);
    offset := PutNum(buf, offset, header.sequence, 4, header.attachment + id, goal);
    offset := Put(buf, offset, header.attachment, id, goal);
    offset := PutNum(buf, offset, header.txnId, 8, payload, goal);
    assert payload + [] == payload;
    offset := Put(buf, offset, payload, [], goal);
    FilledUp(buf, offset, goal);
  }

  lemma FiveParts(a: seq<byte>, b: seq<byte>, c: seq<byte>, d: seq<byte>, e: seq<byte>, body: seq<byte>)
    ensures (a + (b + (c + (d + e)))) + body == a + (b + (c + (d + (e + body))))
  {
    Assoc(a, b + (c + (d + e)), body);
    Assoc(b, c + (d + e), body);
    Assoc(c, d + e, body);
    Assoc(d, e, body);
  }

  lemma Layout(h: Header, body: seq<byte>)
    ensures Encoded(Frame(h, body))
         == Preamble(h) + (LE(|body|, 4) + (LE(h.sequence, 4) + (h.attachment + (LE(h.txnId, 8) + body))))
  {
    FiveParts(Preamble(h), LE(|body|, 4), LE(h.sequence, 4), h.attachment, LE(h.txnId, 8), body);
  }

  // ----- reading

  /** The header and the payload length it announces. */
  function DecodedHeader(bytes: seq<byte>): Result<(Header, nat), ReadError> {
    if |bytes| != HEADER_SIZE then Err(BadHeaderLength)
    else if bytes[..4] != MAGIC then Err(BadMagic)
    else if bytes[4] != MAJOR || bytes[5] != MINOR then Err(BadVersion)
    else
      var length := Num(bytes[8..12]);
      if length > MAX_MESSAGE_SIZE then Err(TooLarge)
      else Ok((Header(bytes[6], bytes[7], Num32(bytes[12..16]), bytes[16..32], Num64(bytes[32..40])), length))
  }

  function Num32(b: seq<byte>): uint32
    requires |b| == 4
  {
    Widths();
    LEInvertsNum(b);
    Num(b)
  }

  function Num64(b: seq<byte>): uint64
    requires |b| == 8
  {
    Widths();
    LEInvertsNum(b);
    Num(b)
  }

  /** io.ReadFull */
  function ReadFull(stream: seq<byte>, n: nat): Result<seq<byte>, ReadError> {
    if n <= |stream| then Ok(stream[..n])
    else if stream == [] then Err(EndOfStream)
    else Err(UnexpectedEnd)
  }

  /** readMessage on the bytes still to come; a failed read takes what there was. */
  function ReadFrame(stream: seq<byte>): (Result<Frame, ReadError>, seq<byte>) {
    var bytes := ReadFull(stream, HEADER_SIZE);
    if bytes.Err? then (Err(bytes.error), [])
    else
      var behind := stream[HEADER_SIZE..];
      var decoded := DecodedHeader(bytes.value);
      if decoded.Err? then (Err(decoded.error), behind)
      else
        var (header, length) := decoded.value;
        var body := ReadFull(behind, length);
        if body.Err? then (Err(body.error), []) else (Ok(Frame(header, body.value)), behind[length..])
  }

  class Reader {
    var stream: seq<byte>

    constructor (bytes: seq<byte>)
      ensures stream == bytes
    {
      stream := bytes;
    }

    method Fill(n: nat) returns (r: Result<seq<byte>, ReadError>)
      modifies this
      ensures r == ReadFull(old(stream), n)
      ensures stream == if r.Ok? then old(stream)[n..] else []
    {
      if n <= |stream| {
        r := Ok(stream[..n]);
        stream := stream[n..];
      } else {
        r := Err(if stream == [] then EndOfStream else UnexpectedEnd);
        stream := [];
      }
    }

    method ReadMessage() returns (r: Result<Frame, ReadError>)
      modifies this
      ensures (r, stream) == ReadFrame(old(stream))
    {
      var headerBytes := Fill(HEADER_SIZE);
      if headerBytes.Err? {
        return Err(headerBytes.error);
      }
      var decoded := DecodedHeader(headerBytes.value);
      if decoded.Err? {
        return Err(decoded.error);
      }
      var (header, length) := decoded.value;
      var body: seq<byte> := [];
      if length > 0 {
        var filled := Fill(length);
        if filled.Err? {
          return Err(filled.error);
        }
        body := filled.value;
      } else {
        assert stream[..0] == [] && stream[0..] == stream;
      }
      return Ok(Frame(header, body));
    }
  }

  // ----- the header survives

  lemma SplitHeader(h: Header, length: nat)
    ensures var e := EncodedHeader(h, length);
      && e[..8] == Preamble(h) && e[8..12] == LE(length, 4) && e[12..16] == LE(h.sequence, 4)
      && e[16..32] == h.attachment && e[32..40] == LE(h.txnId, 8)
  {
    var a, b, c, d, t := Preamble(h), LE(length, 4), LE(h.sequence, 4), h.attachment, LE(h.txnId, 8);
    FiveSlices(a, b, c, d, t);
  }

  /** Where each field of a frame stands. */
  lemma FrameLayout(h: Header, body: seq<byte>)
    ensures var e := Encoded(Frame(h, body));
      && |e| == 40 + |body| && e[..4] == [0x53, 0x42, 0x57, 0x50] && e[4] == 1 && e[5] == 1
      && e[6] == h.kind && e[7] == h.flags
      && e[8..12] == LE(|body|, 4) && e[12..16] == LE(h.sequence, 4)
      && e[16..32] == h.attachment && e[32..40] == LE(h.txnId, 8) && e[40..] == body
  {
    var front := EncodedHeader(h, |body|);
    SplitHeader(h, |body|);
    var e := front + body;
    assert e[..8] == front[..8] == Preamble(h) && e[8..12] == front[8..12] && e[12..16] == front[12..16];
    assert e[16..32] == front[16..32] && e[32..40] == front[32..40];
    assert e[..4] == e[..8][..4] && e[4] == e[..8][4] && e[5] == e[..8][5] && e[6] == e[..8][6] && e[7] == e[..8][7];
  }

  lemma FiveSlices(a: seq<byte>, b: seq<byte>, c: seq<byte>, d: seq<byte>, t: seq<byte>)
    requires |a| == 8 && |b| == |c| == 4 && |d| == 16 && |t| == 8
    ensures var e := a + (b + (c + (d + t)));
      e[..8] == a && e[8..12] == b && e[12..16] == c && e[16..32] == d && e[32..40] == t
  {
    var e := a + (b + (c + (d + t)));
    assert e[0..] == e && t + [] == t;
    NextPart(e, 0, a, b + (c + (d + t)));
    NextPart(e, 8, b, c + (d + t));
    NextPart(e, 12, c, d + t);
    NextPart(e, 16, d, t);
    NextPart(e, 32, t, []);
  }

  /** A header is read back as it was, and announces the low 32 bits of the payload length. */
  lemma HeaderRoundTrip(h: Header, length: nat)
    ensures DecodedHeader(EncodedHeader(h, length))
         == if Num(LE(length, 4)) > MAX_MESSAGE_SIZE then Err(TooLarge) else Ok((h, Num(LE(length, 4))))
  {
    var e := EncodedHeader(h, length);
    SplitHeader(h, length);
    var p := e[..8];
    assert e[..4] == p[..4] == MAGIC;
    assert e[4] == p[4] && e[5] == p[5] && e[6] == p[6] && e[7] == p[7];
    Widths();
    NumInvertsLE(h.sequence, 4);
    NumInvertsLE(h.txnId, 8);
  }

  /** A complete header is refused exactly for another magic, then another version, then a payload
      of more than 1 GiB. */
  lemma HeaderIsRefused(stream: seq<byte>)
    requires |stream| >= 40
    ensures var r := ReadFrame(stream).0; var magic := stream[..4] == [0x53, 0x42, 0x57, 0x50];
      && (r == Err(BadMagic) <==> !magic)
      && (r == Err(BadVersion) <==> magic && stream[4..6] != [1, 1])
      && (r == Err(TooLarge) <==> magic && stream[4..6] == [1, 1] && Num(stream[8..12]) > 0x4000_0000)
      && r != Err(BadHeaderLength)
  {
    assert stream[..40][..4] == stream[..4] && stream[..40][8..12] == stream[8..12];
    assert stream[4..6] == [stream[4], stream[5]];
  }

  lemma FourBytesOfLength(length: nat)
    ensures Num(LE(length, 4)) < 0x1_0000_0000
    ensures length < 0x1_0000_0000 ==> Num(LE(length, 4)) == length
  {
    Widths();
    LEInvertsNum(LE(length, 4));
    if length < 0x1_0000_0000 {
      NumInvertsLE(length, 4);
    }
  }

  lemma ReadFrameOf(h: Header, length: nat, behind: seq<byte>)
    ensures var n := Num(LE(length, 4));
      ReadFrame(EncodedHeader(h, length) + behind) ==
        if n > MAX_MESSAGE_SIZE then (Err(TooLarge), behind)
        else if n <= |behind| then (Ok(Frame(h, behind[..n])), behind[n..])
        else (Err(if behind == [] then EndOfStream else UnexpectedEnd), [])
  {
    TakeInverts(EncodedHeader(h, length), behind);
    HeaderRoundTrip(h, length);
  }

  /** A frame in front of anything is read back, leaving exactly what is behind it, if and only
      if its payload is within the maximum size. */
  lemma FrameRoundTrip(f: Frame, behind: seq<byte>)
    ensures ReadFrame(Encoded(f) + behind) == (Ok(f), behind) <==> |f.body| <= MAX_MESSAGE_SIZE
  {
    assert Encoded(f) + behind == EncodedHeader(f.header, |f.body|) + (f.body + behind);
    ReadFrameOf(f.header, |f.body|, f.body + behind);
    FourBytesOfLength(|f.body|);
    TakeInverts(f.body, behind);
  }

  // ----- streams of frames

  /** Reads messages until the first error; the error is the second component. */
  function ReadAll(stream: seq<byte>): (seq<Frame>, ReadError)
    decreases |stream|
  {
    var (r, behind) := ReadFrame(stream);
    if r.Err? then ([], r.error)
    else
      var (others, error) := ReadAll(behind);
      ([r.value] + others, error)
  }

  predicate AllSmall(fs: seq<Frame>) {
    forall i :: 0 <= i < |fs| ==> |fs[i].body| <= MAX_MESSAGE_SIZE
  }

  lemma ReadOne(f: Frame, behind: seq<byte>)
    requires |f.body| <= MAX_MESSAGE_SIZE
    ensures ReadAll(Encoded(f) + behind) == ([f] + ReadAll(behind).0, ReadAll(behind).1)
  {
    FrameRoundTrip(f, behind);
  }

  lemma Cons(fs: seq<Frame>, after: seq<Frame>)
    requires fs != []
    ensures [fs[0]] + (fs[1..] + after) == fs + after
  {
  }

  lemma EncodedAllStep(fs: seq<Frame>, tail: seq<byte>)
    requires fs != []
    ensures EncodedAll(fs) + tail == Encoded(fs[0]) + (EncodedAll(fs[1..]) + tail)
  {
    Assoc(Encoded(fs[0]), EncodedAll(fs[1..]), tail);
  }

  /** Frames are self-delimiting: a reader of any concatenation of them gets the messages in
      order, and then what it would have got from the bytes that follow. */
  lemma {:induction false} StreamRoundTrip(fs: seq<Frame>, tail: seq<byte>)
    requires AllSmall(fs)
    ensures ReadAll(EncodedAll(fs) + tail) == (fs + ReadAll(tail).0, ReadAll(tail).1)
    decreases |fs|
  {
    var after := ReadAll(tail).0;
    if fs == [] {
      assert [] + tail == tail && fs + after == after;
    } else {
      var behind := EncodedAll(fs[1..]) + tail;
      EncodedAllStep(fs, tail);
      ReadOne(fs[0], behind);
      StreamRoundTrip(fs[1..], tail);
      Cons(fs, after);
    }
  }

  lemma SplitIntoFive(bytes: seq<byte>)
    requires |bytes| == HEADER_SIZE
    ensures bytes == bytes[..8] + (bytes[8..12] + (bytes[12..16] + (bytes[16..32] + bytes[32..40])))
  {
    assert bytes[16..40] == bytes[16..32] + bytes[32..40];
    assert bytes[12..40] == bytes[12..16] + bytes[16..40];
    assert bytes[8..40] == bytes[8..12] + bytes[12..40];
    assert bytes == bytes[..8] + bytes[8..40];
  }

  lemma HeaderIsCanonical(bytes: seq<byte>)
    requires DecodedHeader(bytes).Ok?
    ensures bytes == EncodedHeader(DecodedHeader(bytes).value.0, DecodedHeader(bytes).value.1)
    ensures DecodedHeader(bytes).value.1 <= MAX_MESSAGE_SIZE
  {
    LEInvertsNum(bytes[8..12]);
    LEInvertsNum(bytes[12..16]);
    LEInvertsNum(bytes[32..40]);
    var (h, length) := DecodedHeader(bytes).value;
    assert bytes[..8] == Preamble(h) by {
      assert bytes[..8] == bytes[..4] + [bytes[4], bytes[5], bytes[6], bytes[7]];
    }
    SplitIntoFive(bytes);
  }

  /** The reader accepts nothing but encoded frames. */
  lemma ReadIsEncoded(stream: seq<byte>, f: Frame, behind: seq<byte>)
    requires ReadFrame(stream) == (Ok(f), behind)
    ensures stream == Encoded(f) + behind && |f.body| <= MAX_MESSAGE_SIZE
  {
    var bytes, after := stream[..HEADER_SIZE], stream[HEADER_SIZE..];
    HeaderIsCanonical(bytes);
    var length := DecodedHeader(bytes).value.1;
    assert f.body == after[..length] && behind == after[length..];
    Rejoin(stream, bytes, after, f.body, behind);
  }

  lemma Rejoin(stream: seq<byte>, a: seq<byte>, after: seq<byte>, b: seq<byte>, c: seq<byte>)
    requires |a| <= |stream| && a == stream[..|a|] && after == stream[|a|..]
    requires |b| <= |after| && b == after[..|b|] && c == after[|b|..]
    ensures stream == a + b + c
  {
    assert stream == a + after && after == b + c;
  }

  /** What the reader got is what the stream holds: any stream is its messages' encodings and
      a rest at which reading fails. */
  lemma {:induction false} StreamIsItsMessages(stream: seq<byte>) returns (rest: seq<byte>)
    ensures stream == EncodedAll(ReadAll(stream).0) + rest
    ensures ReadFrame(rest).0 == Err(ReadAll(stream).1)
    decreases |stream|
  {
    var (r, behind) := ReadFrame(stream);
    if r.Err? {
      rest := stream;
      assert [] + stream == stream;
    } else {
      ReadIsEncoded(stream, r.value, behind);
      rest := StreamIsItsMessages(behind);
      var (others, error) := ReadAll(behind);
      assert ([r.value] + others)[1..] == others;
      assert Encoded(r.value) + (EncodedAll(others) + rest) == Encoded(r.value) + EncodedAll(others) + rest;
    }
  }

  /** A frame cut short is never read as a message. A cut right behind the header looks to the
      caller like one between two messages. */
  lemma TruncatedFrame(f: Frame, k: nat)
    requires |f.body| <= MAX_MESSAGE_SIZE && k < |Encoded(f)|
    ensures ReadFrame(Encoded(f)[..k]) == (Err(if k == 0 || k == HEADER_SIZE then EndOfStream else UnexpectedEnd), [])
  {
    if k >= HEADER_SIZE {
      var e := EncodedHeader(f.header, |f.body|);
      assert Encoded(f)[..k] == e + f.body[..k - HEADER_SIZE];
      ReadFrameOf(f.header, |f.body|, f.body[..k - HEADER_SIZE]);
      FourBytesOfLength(|f.body|);
    }
  }
}
