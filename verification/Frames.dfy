/**
 The wire format of the Git SSH broker: five-byte headers (type, big-endian
 length), payloads of at most 16 MiB, and the length-prefixed request envelope.

 The pure functions are the specification; class `Pipe` holds the bytes of one
 direction of a connection, and its methods write and read frames in place.
 */
module Frames {
  import opened Wrappers

  type byte = x: int | 0 <= x < 256
  type Bytes = seq<byte>

  const STDIN: byte := 1
  const STDOUT: byte := 2
  const STDERR: byte := 3
  const STDIN_EOF: byte := 4
  const EXIT: byte := 5

  const MAX_FRAME_SIZE: nat := 16 * 1024 * 1024
  const TWO_TO_32: nat := 0x1_0000_0000

  datatype Frame = Frame(kind: byte, payload: Bytes)

  datatype ReadError = Eof | UnexpectedEof | InvalidSize(size: nat)

  datatype Read<+T> = Got(value: T, rest: Bytes) | Failed(error: ReadError, left: Bytes)

  // ----- big-endian words

  function BE32(n: nat): (b: Bytes)
    requires n < TWO_TO_32
    ensures |b| == 4
  {
    [n / 0x100_0000, n / 0x1_0000 % 0x100, n / 0x100 % 0x100, n % 0x100]
  }

  function FromBE32(b: Bytes): (n: nat)
    requires |b| == 4
    ensures n < TWO_TO_32
  {
    (b[0] as int) * 0x100_0000 + (b[1] as int) * 0x1_0000 + (b[2] as int) * 0x100 + (b[3] as int)
  }

  lemma BE32RoundTrip(n: nat)
    requires n < TWO_TO_32
    ensures FromBE32(BE32(n)) == n
  {
    assert n / 0x100 == n / 0x1_0000 * 0x100 + n / 0x100 % 0x100;
    assert n / 0x1_0000 == n / 0x100_0000 * 0x100 + n / 0x1_0000 % 0x100;
  }

  lemma FromBE32RoundTrip(w: Bytes)
    requires |w| == 4
    ensures BE32(FromBE32(w)) == w
  {
    var a, b, c, d := w[0] as int, w[1] as int, w[2] as int, w[3] as int;
    var n := FromBE32(w);
    assert n == a * 0x100_0000 + b * 0x1_0000 + c * 0x100 + d;
    assert n / 0x100_0000 == a;
    assert n / 0x1_0000 == a * 0x100 + b;
    assert n / 0x100 == a * 0x1_0000 + b * 0x100 + c;
  }

  // ----- frames

  predicate Fits(f: Frame) {
    |f.payload| <= MAX_FRAME_SIZE
  }

  predicate AllFit(fs: seq<Frame>) {
    forall i :: 0 <= i < |fs| ==> Fits(fs[i])
  }

  function Header(f: Frame): (b: Bytes)
    requires Fits(f)
    ensures |b| == 5
  {
    [f.kind] + BE32(|f.payload|)
  }

  function EncodeFrame(f: Frame): (b: Bytes)
    requires Fits(f)
    ensures |b| == 5 + |f.payload|
  {
    Header(f) + f.payload
  }

  function Encode(fs: seq<Frame>): Bytes
    requires AllFit(fs)
  {
    if fs == [] then [] else EncodeFrame(fs[0]) + Encode(fs[1..])
  }

  /** Reading exactly `n` bytes: nothing at all is end of file, some but not enough is unexpected end of file. */
  function ReadFull(b: Bytes, n: nat): Read<Bytes> {
    if n <= |b| then Got(b[..n], b[n..])
    else Failed(if b == [] then Eof else UnexpectedEof, [])
  }

  function ReadFrame(b: Bytes): (r: Read<Frame>)
    ensures r.Got? ==> Fits(r.value) && |r.rest| < |b|
  {
    match ReadFull(b, 5)
    case Failed(e, left) => Failed(e, left)
    case Got(header, rest) =>
      var n := FromBE32(header[1..5]);
      if n > MAX_FRAME_SIZE then Failed(InvalidSize(n), rest)
      else
        match ReadFull(rest, n)
        case Failed(e, left) => Failed(e, left)
        case Got(payload, rest') => Got(Frame(header[0], payload), rest')
  }

  datatype Decoded = Decoded(frames: seq<Frame>, error: ReadError)

  /** Reads frames until a read fails. */
  function DecodeAll(b: Bytes): (d: Decoded)
    ensures AllFit(d.frames)
    decreases |b|
  {
    match ReadFrame(b)
    case Failed(e, _) => Decoded([], e)
    case Got(f, rest) =>
      var d := DecodeAll(rest);
      Decoded([f] + d.frames, d.error)
  }

  lemma ReadEncodedFrame(f: Frame, rest: Bytes)
    requires Fits(f)
    ensures ReadFrame(EncodeFrame(f) + rest) == Got(f, rest)
  {
    var b := EncodeFrame(f) + rest;
    assert b[..5] == Header(f);
    assert b[..5][1..5] == BE32(|f.payload|);
    BE32RoundTrip(|f.payload|);
    assert b[5..] == f.payload + rest;
    assert b[5..][..|f.payload|] == f.payload;
    assert b[5..][|f.payload|..] == rest;
  }

  /** Conversely, every frame read was written as its own encoding. */
  lemma ReadFrameIsEncoding(b: Bytes)
    requires ReadFrame(b).Got?
    ensures b == EncodeFrame(ReadFrame(b).value) + ReadFrame(b).rest
  {
    hide BE32;
    hide FromBE32;
    var n := FromBE32(b[..5][1..5]);
    var f := ReadFrame(b).value;
    assert f == Frame(b[0], b[5..][..n]);
    FromBE32RoundTrip(b[..5][1..5]);
    assert b[..5] == Header(f);
    assert b == b[..5] + b[5..][..n] + b[5..][n..];
  }

  lemma EncodeAppend(fs: seq<Frame>, gs: seq<Frame>)
    requires AllFit(fs) && AllFit(gs)
    ensures AllFit(fs + gs)
    ensures Encode(fs + gs) == Encode(fs) + Encode(gs)
  {
    if fs == [] {
      assert fs + gs == gs;
    } else {
      assert (fs + gs)[1..] == fs[1..] + gs;
      EncodeAppend(fs[1..], gs);
      calc {
        Encode(fs + gs);
        EncodeFrame(fs[0]) + Encode(fs[1..] + gs);
        EncodeFrame(fs[0]) + (Encode(fs[1..]) + Encode(gs));
        Encode(fs) + Encode(gs);
      }
    }
  }

  lemma EncodeSingle(f: Frame)
    requires Fits(f)
    ensures Encode([f]) == EncodeFrame(f)
  {
    assert Encode([f]) == EncodeFrame(f) + Encode([]);
  }

  /** Decoding continues past any encoded list with whatever follows it. */
  lemma {:induction false} DecodeEncodeThen(fs: seq<Frame>, rest: Bytes)
    requires AllFit(fs)
    ensures DecodeAll(Encode(fs) + rest) == Decoded(fs + DecodeAll(rest).frames, DecodeAll(rest).error)
  {
    hide ReadFrame;
    hide EncodeFrame;
    if fs == [] {
      assert Encode(fs) + rest == rest;
      assert fs + DecodeAll(rest).frames == DecodeAll(rest).frames;
    } else {
      var tail := Encode(fs[1..]) + rest;
      assert Encode(fs) + rest == EncodeFrame(fs[0]) + tail;
      ReadEncodedFrame(fs[0], tail);
      DecodeEncodeThen(fs[1..], rest);
      assert [fs[0]] + (fs[1..] + DecodeAll(rest).frames) == fs + DecodeAll(rest).frames;
    }
  }

  /** Frame encoding is decodable: the list comes back and the stream then ends cleanly. */
  lemma DecodeEncode(fs: seq<Frame>)
    requires AllFit(fs)
    ensures DecodeAll(Encode(fs)) == Decoded(fs, Eof)
  {
    DecodeEncodeThen(fs, []);
    assert Encode(fs) + [] == Encode(fs);
    assert fs + [] == fs;
  }

  /** No byte string is the encoding of two different frame lists. */
  lemma EncodeInjective(fs: seq<Frame>, gs: seq<Frame>)
    requires AllFit(fs) && AllFit(gs)
    ensures Encode(fs) == Encode(gs) <==> fs == gs
  {
    DecodeEncode(fs);
    DecodeEncode(gs);
  }

  /** Whatever the input, the frames read re-encode to the bytes consumed, and what is left starts no whole frame. */
  lemma {:induction false} DecodeIsEncoding(b: Bytes) returns (left: Bytes)
    ensures b == Encode(DecodeAll(b).frames) + left
    ensures ReadFrame(left).Failed? && ReadFrame(left).error == DecodeAll(b).error
    decreases |b|
  {
    hide ReadFrame;
    hide EncodeFrame;
    match ReadFrame(b)
    case Failed(_, _) =>
      left := b;
    case Got(f, rest) =>
      ReadFrameIsEncoding(b);
      left := DecodeIsEncoding(rest);
      var d := DecodeAll(rest);
      assert DecodeAll(b).frames[1..] == d.frames;
      assert Encode(DecodeAll(b).frames) == EncodeFrame(f) + Encode(d.frames);
      assert EncodeFrame(f) + (Encode(d.frames) + left) == (EncodeFrame(f) + Encode(d.frames)) + left;
  }

  /** A frame cut anywhere before its end cannot be read, and the failure is an end of file. */
  lemma CutFrame(f: Frame, k: nat)
    requires Fits(f)
    requires k < |EncodeFrame(f)|
    ensures ReadFrame(EncodeFrame(f)[..k]).Failed?
    ensures ReadFrame(EncodeFrame(f)[..k]).error in {Eof, UnexpectedEof}
  {
    var b := EncodeFrame(f)[..k];
    if 5 <= k {
      assert b[..5] == Header(f);
      assert b[..5][1..5] == BE32(|f.payload|);
      BE32RoundTrip(|f.payload|);
    }
  }

  /** Decoding a frame and more: the frame, then what the rest decodes to. */
  lemma DecodeFirst(fs: seq<Frame>, rest: seq<byte>, m: nat)
    requires AllFit(fs) && m < |fs| && DecodeAll(rest).frames == fs[1..][..m]
    ensures DecodeAll(EncodeFrame(fs[0]) + rest).frames == fs[..m + 1]
    ensures DecodeAll(EncodeFrame(fs[0]) + rest).error == DecodeAll(rest).error
  {
    hide ReadFrame;
    hide EncodeFrame;
    ReadEncodedFrame(fs[0], rest);
    assert fs[..m + 1] == [fs[0]] + fs[1..][..m];
  }

  lemma EncodePrefix(fs: seq<Frame>, m: nat)
    requires AllFit(fs) && m < |fs|
    ensures AllFit(fs[..m + 1]) && AllFit(fs[1..][..m])
    ensures Encode(fs[..m + 1]) == EncodeFrame(fs[0]) + Encode(fs[1..][..m])
  {
    hide EncodeFrame;
    assert fs[..m + 1][1..] == fs[1..][..m] && fs[..m + 1][0] == fs[0];
  }

  /** Decoding a strict prefix gives exactly the frames that lie inside it, then an end-of-file error. */
  lemma {:induction false} DecodeStrictPrefix(fs: seq<Frame>, k: nat) returns (m: nat)
    requires AllFit(fs)
    requires k < |Encode(fs)|
    ensures m < |fs|
    ensures |Encode(fs[..m])| <= k < |Encode(fs[..m + 1])|
    ensures DecodeAll(Encode(fs)[..k]).frames == fs[..m]
    ensures DecodeAll(Encode(fs)[..k]).error in {Eof, UnexpectedEof}
  {
    hide ReadFrame;
    hide EncodeFrame;
    var first := EncodeFrame(fs[0]);
    EncodeSingle(fs[0]);
    if k < |first| {
      m := 0;
      assert fs[..1] == [fs[0]];
      assert Encode(fs)[..k] == first[..k];
      CutFrame(fs[0], k);
    } else {
      var j := k - |first|;
      assert Encode(fs)[..k] == first + Encode(fs[1..])[..j];
      var m' := DecodeStrictPrefix(fs[1..], j);
      m := m' + 1;
      EncodePrefix(fs, m');
      EncodePrefix(fs, m' + 1);
      DecodeFirst(fs, Encode(fs[1..])[..j], m');
    }
  }

  // ----- the bytes themselves

  /** On the wire a frame is its type, the payload's length with the highest byte first, and the payload. */
  lemma FrameBytes(f: Frame)
    requires |f.payload| <= 16_777_216
    ensures Fits(f)
    ensures var b := EncodeFrame(f);
            && b[0] == f.kind
            && 16_777_216 * b[1] as int + 65_536 * b[2] as int + 256 * b[3] as int + b[4] as int == |f.payload|
            && b[5..] == f.payload
  {
    BE32RoundTrip(|f.payload|);
  }

  /** A header that announces more than 16 MiB is refused before the payload is read, and no other header is. */
  lemma OversizedIffRefused(kind: byte, a: byte, b: byte, c: byte, d: byte, rest: Bytes)
    ensures var n := 16_777_216 * a as int + 65_536 * b as int + 256 * c as int + d as int;
            var r := ReadFrame([kind, a, b, c, d] + rest);
            && (r == Failed(InvalidSize(n), rest) <==> n > 16_777_216)
            && (n <= 16_777_216 && n <= |rest| ==> r == Got(Frame(kind, rest[..n]), rest[n..]))
  {
    var header := [kind, a, b, c, d];
    assert (header + rest)[..5] == header && (header + rest)[5..] == rest;
    assert header[1..5] == [a, b, c, d];
  }

  /** A frame cut at its start, or where its header ends, is a clean end of file; cut anywhere else it is an unexpected
      one. */
  lemma CutErrorIff(f: Frame, k: nat)
    requires Fits(f) && k < |EncodeFrame(f)|
    ensures ReadFrame(EncodeFrame(f)[..k]) == Failed(if k == 0 || k == 5 then Eof else UnexpectedEof, [])
  {
    CutFrame(f, k);
    var b := EncodeFrame(f)[..k];
    if 5 <= k {
      assert b[..5] == Header(f);
      assert b[..5][1..5] == BE32(|f.payload|);
      BE32RoundTrip(|f.payload|);
    }
  }

  // ----- request envelope

  function EncodeRequest(payload: Bytes): Option<Bytes> {
    if |payload| > MAX_FRAME_SIZE then None else Some(BE32(|payload|) + payload)
  }

  function ReadRequest(b: Bytes): Read<Bytes> {
    match ReadFull(b, 4)
    case Failed(e, left) => Failed(e, left)
    case Got(size, rest) =>
      var n := FromBE32(size);
      if n == 0 || n > MAX_FRAME_SIZE then Failed(InvalidSize(n), rest) else ReadFull(rest, n)
  }

  /** The envelope round trips its payload exactly when the payload is neither empty nor too large. */
  lemma RequestRoundTrip(payload: Bytes, rest: Bytes)
    ensures (EncodeRequest(payload).Some? && ReadRequest(EncodeRequest(payload).value + rest) == Got(payload, rest))
            <==> 0 < |payload| <= MAX_FRAME_SIZE
  {
    if |payload| <= MAX_FRAME_SIZE {
      var b := EncodeRequest(payload).value + rest;
      BE32RoundTrip(|payload|);
      assert b[..4] == BE32(|payload|);
      assert b[4..] == payload + rest;
      assert (payload + rest)[..|payload|] == payload;
      assert (payload + rest)[|payload|..] == rest;
    }
  }

  // ----- one direction of a connection

  class Pipe {
    var buf: Bytes

    constructor (bytes: Bytes)
      ensures buf == bytes
    {
      buf := bytes;
    }

    method Write(bytes: Bytes)
      modifies this
      ensures buf == old(buf) + bytes
    {
      buf := buf + bytes;
    }

    /** `io.ReadFull`: takes `n` bytes off the front, or fails and takes everything. */
    method TakeFull(n: nat) returns (r: Read<Bytes>)
      modifies this
      ensures r == ReadFull(old(buf), n)
      ensures buf == if r.Got? then r.rest else r.left
    {
      if n <= |buf| {
        r := Got(buf[..n], buf[n..]);
        buf := buf[n..];
      } else {
        r := Failed(if buf == [] then Eof else UnexpectedEof, []);
        buf := [];
      }
    }

    method PutFrame(kind: byte, payload: Bytes) returns (ok: bool)
      modifies this
      ensures ok == Fits(Frame(kind, payload))
      ensures buf == if ok then old(buf) + EncodeFrame(Frame(kind, payload)) else old(buf)
    {
      if |payload| > MAX_FRAME_SIZE {
        return false;
      }
      Write(Header(Frame(kind, payload)));
      if |payload| == 0 {
        assert old(buf) + EncodeFrame(Frame(kind, payload)) == buf;
        return true;
      }
      Write(payload);
      assert old(buf) + EncodeFrame(Frame(kind, payload)) == buf;
      return true;
    }

    method TakeFrame() returns (r: Read<Frame>)
      modifies this
      ensures r == ReadFrame(old(buf))
      ensures buf == if r.Got? then r.rest else r.left
    {
      var header := TakeFull(5);
      if header.Failed? {
        return Failed(header.error, header.left);
      }
      var n := FromBE32(header.value[1..5]);
      if n > MAX_FRAME_SIZE {
        return Failed(InvalidSize(n), buf);
      }
      if n == 0 {
        // an empty payload is not read at all
        assert buf[..0] == [] && buf[0..] == buf;
        return Got(Frame(header.value[0], []), buf);
      }
      var payload := TakeFull(n);
      if payload.Failed? {
        return Failed(payload.error, payload.left);
      }
      return Got(Frame(header.value[0], payload.value), buf);
    }

    method PutRequest(payload: Bytes) returns (ok: bool)
      modifies this
      ensures ok == EncodeRequest(payload).Some?
      ensures buf == if ok then old(buf) + EncodeRequest(payload).value else old(buf)
    {
      if |payload| > MAX_FRAME_SIZE {
        return false;
      }
      Write(BE32(|payload|));
      Write(payload);
      assert old(buf) + (BE32(|payload|) + payload) == buf;
      return true;
    }

    method TakeRequest() returns (r: Read<Bytes>)
      modifies this
      ensures r == ReadRequest(old(buf))
      ensures buf == if r.Got? then r.rest else r.left
    {
      var size := TakeFull(4);
      if size.Failed? {
        return Failed(size.error, size.left);
      }
      var n := FromBE32(size.value);
      if n == 0 || n > MAX_FRAME_SIZE {
        return Failed(InvalidSize(n), buf);
      }
      r := TakeFull(n);
    }
  }
}
