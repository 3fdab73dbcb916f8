/**
 The broker side of one Git SSH session as a machine of interleaved steps: two
 copier goroutines share a connection through a mutex, the main goroutine joins
 them and then writes the exit frame. The helper side reads the bytes back.
 */
module Broker {
  import opened Wrappers
  import opened Frames

  /** Each copier reads into a 32 KiB buffer. */
  const CHUNK_SIZE: nat := 32 * 1024

  type Chunk = c: Bytes | 0 < |c| <= CHUNK_SIZE witness [0]

  datatype Who = OutCopier | ErrCopier

  function Kind(who: Who): byte {
    if who == OutCopier then STDOUT else STDERR
  }

  /** Where a copier stands; `last` says its read also reported the end of the stream. */
  datatype Pc =
    | Reading
    | Blocked(chunk: Chunk, last: bool)
    | Locked(chunk: Chunk, last: bool)
    | HeaderSent(chunk: Chunk, last: bool)
    | PayloadSent(last: bool)
    | Stopped

  /** `read` is the history of the chunks this copier has read. */
  datatype Copier = Copier(pc: Pc, read: seq<Chunk>)

  datatype MainPc = Joining | ExitHeaderSent(code: nat) | Finished(code: nat)

  /** `log` is the history of the frames completely written. */
  datatype State = State(out: Copier, err: Copier, lock: Option<Who>, main: MainPc, wire: Bytes, log: seq<Frame>)
  {
    function Get(who: Who): Copier {
      if who == OutCopier then out else err
    }

    function Set(who: Who, c: Copier): State {
      if who == OutCopier then this.(out := c) else this.(err := c)
    }
  }

  function ChunkFrame(who: Who, chunk: Chunk): Frame {
    Frame(Kind(who), chunk)
  }

  function ExitFrame(code: nat): Frame
    requires code < TWO_TO_32
  {
    Frame(EXIT, BE32(code))
  }

  /** `writeGitSSHTransportExit` reports a negative code as 1. */
  function ExitCode(code: int): int {
    if code < 0 then 1 else code
  }

  predicate Init(s: State) {
    s == State(Copier(Reading, []), Copier(Reading, []), None, Joining, [], [])
  }

  // ----- steps

  predicate ReadChunk(s: State, t: State, who: Who, chunk: Chunk, last: bool) {
    var c := s.Get(who);
    && c.pc == Reading
    && t == s.Set(who, Copier(Blocked(chunk, last), c.read + [chunk]))
  }

  predicate ReadEnd(s: State, t: State, who: Who) {
    var c := s.Get(who);
    && c.pc == Reading
    && t == s.Set(who, c.(pc := Stopped))
  }

  predicate TakeLock(s: State, t: State, who: Who) {
    var c := s.Get(who);
    && c.pc.Blocked?
    && s.lock == None
    && t == s.Set(who, c.(pc := Locked(c.pc.chunk, c.pc.last))).(lock := Some(who))
  }

  predicate SendHeader(s: State, t: State, who: Who) {
    var c := s.Get(who);
    && c.pc.Locked?
    && t == s.Set(who, c.(pc := HeaderSent(c.pc.chunk, c.pc.last)))
             .(wire := s.wire + Header(ChunkFrame(who, c.pc.chunk)))
  }

  predicate SendPayload(s: State, t: State, who: Who) {
    var c := s.Get(who);
    && c.pc.HeaderSent?
    && t == s.Set(who, c.(pc := PayloadSent(c.pc.last)))
             .(wire := s.wire + c.pc.chunk, log := s.log + [ChunkFrame(who, c.pc.chunk)])
  }

  predicate ReleaseLock(s: State, t: State, who: Who) {
    var c := s.Get(who);
    && c.pc.PayloadSent?
    && t == s.Set(who, c.(pc := if c.pc.last then Stopped else Reading)).(lock := None)
  }

  /** The process has ended with `code` and both copiers have returned. */
  predicate SendExitHeader(s: State, t: State, code: nat) {
    && code < TWO_TO_32
    && s.main == Joining
    && s.out.pc == Stopped && s.err.pc == Stopped
    && t == s.(main := ExitHeaderSent(code), wire := s.wire + Header(ExitFrame(code)))
  }

  predicate SendExitPayload(s: State, t: State) {
    && s.main.ExitHeaderSent?
    && s.main.code < TWO_TO_32
    && t == s.(main := Finished(s.main.code), wire := s.wire + BE32(s.main.code), log := s.log + [ExitFrame(s.main.code)])
  }

  ghost predicate CopierStep(s: State, t: State, who: Who) {
    || (exists chunk, last :: ReadChunk(s, t, who, chunk, last))
    || ReadEnd(s, t, who)
    || TakeLock(s, t, who)
    || SendHeader(s, t, who)
    || SendPayload(s, t, who)
    || ReleaseLock(s, t, who)
  }

  ghost predicate Next(s: State, t: State) {
    || (exists who :: CopierStep(s, t, who))
    || (exists code: nat :: SendExitHeader(s, t, code))
    || SendExitPayload(s, t)
  }

  ghost predicate IsRun(run: seq<State>) {
    && run != []
    && Init(run[0])
    && forall i :: 0 < i < |run| ==> Next(run[i - 1], run[i])
  }

  // ----- the invariant

  /** The payloads of the frames of one kind, in order. */
  function Payloads(fs: seq<Frame>, kind: byte): seq<Bytes> {
    if fs == [] then []
    else
      var rest := Payloads(fs[..|fs| - 1], kind);
      if fs[|fs| - 1].kind == kind then rest + [fs[|fs| - 1].payload] else rest
  }

  /** The chunk a copier has read but not yet put on the wire as a whole frame. */
  function InFlight(pc: Pc): seq<Bytes> {
    match pc
    case Blocked(c, _) => [c]
    case Locked(c, _) => [c]
    case HeaderSent(c, _) => [c]
    case _ => []
  }

  predicate Holds(pc: Pc) {
    pc.Locked? || pc.HeaderSent? || pc.PayloadSent?
  }

  /** The start of a frame that is on the wire but not complete. */
  function Partial(s: State): Bytes {
    if s.main.ExitHeaderSent? && s.main.code < TWO_TO_32 then Header(ExitFrame(s.main.code))
    else if s.out.pc.HeaderSent? then Header(ChunkFrame(OutCopier, s.out.pc.chunk))
    else if s.err.pc.HeaderSent? then Header(ChunkFrame(ErrCopier, s.err.pc.chunk))
    else []
  }

  predicate StreamFrames(fs: seq<Frame>) {
    forall i :: 0 <= i < |fs| ==> fs[i].kind in {STDOUT, STDERR} && Fits(fs[i])
  }

  ghost predicate Inv(s: State) {
    && AllFit(s.log)
    && s.wire == Encode(s.log) + Partial(s)
    && (Holds(s.out.pc) <==> s.lock == Some(OutCopier))
    && (Holds(s.err.pc) <==> s.lock == Some(ErrCopier))
    && s.out.read == Payloads(s.log, STDOUT) + InFlight(s.out.pc)
    && s.err.read == Payloads(s.log, STDERR) + InFlight(s.err.pc)
    && (s.main != Joining ==> s.out.pc == Stopped && s.err.pc == Stopped)
    && match s.main
       case Joining => StreamFrames(s.log)
       case ExitHeaderSent(code) => code < TWO_TO_32 && StreamFrames(s.log)
       case Finished(code) =>
         code < TWO_TO_32 && s.log != []
         && StreamFrames(s.log[..|s.log| - 1]) && s.log[|s.log| - 1] == ExitFrame(code)
  }

  lemma LogGrows(fs: seq<Frame>, f: Frame)
    requires AllFit(fs) && Fits(f)
    ensures AllFit(fs + [f])
    ensures Encode(fs + [f]) == Encode(fs) + Header(f) + f.payload
    ensures forall kind :: Payloads(fs + [f], kind) == Payloads(fs, kind) + (if f.kind == kind then [f.payload] else [])
  {
    hide Encode;
    hide BE32;
    EncodeAppend(fs, [f]);
    EncodeSingle(f);
    assert EncodeFrame(f) == Header(f) + f.payload;
    assert (fs + [f])[..|fs|] == fs;
  }

  lemma CopierKeepsInv(s: State, t: State, who: Who)
    requires Inv(s) && CopierStep(s, t, who)
    ensures Inv(t)
  {
    hide Encode;
    hide Payloads;
    hide Header;
    var c := s.Get(who);
    if SendPayload(s, t, who) {
      LogGrows(s.log, ChunkFrame(who, c.pc.chunk));
    }
  }

  lemma MainKeepsInv(s: State, t: State)
    requires Inv(s)
    requires (exists code: nat :: SendExitHeader(s, t, code)) || SendExitPayload(s, t)
    ensures Inv(t)
  {
    hide Encode;
    hide Payloads;
    hide Header;
    hide BE32;
    if SendExitPayload(s, t) {
      LogGrows(s.log, ExitFrame(s.main.code));
      assert t.log[..|s.log|] == s.log;
    }
  }

  lemma {:induction false} RunKeepsInv(run: seq<State>, i: nat)
    requires IsRun(run) && i < |run|
    ensures Inv(run[i])
  {
    if i == 0 {
      assert Encode([]) == [];
    } else {
      RunKeepsInv(run, i - 1);
      var s, t := run[i - 1], run[i];
      assert Next(s, t);
      if who :| CopierStep(s, t, who) {
        CopierKeepsInv(s, t, who);
      } else {
        MainKeepsInv(s, t);
      }
    }
  }

  // ----- the helper

  /** What the helper wrote to its own stdout and stderr, chunk by chunk, and the code it returned. */
  datatype Outcome = Outcome(out: seq<Bytes>, err: seq<Bytes>, code: int)

  const FAILURE_CODE: int := 97

  /** The helper's loop over the connection, started with what it has already written. */
  function Receive(b: Bytes, out: seq<Bytes>, err: seq<Bytes>): Outcome
    decreases |b|
  {
    match ReadFrame(b)
    case Failed(_, _) => Outcome(out, err, FAILURE_CODE)
    case Got(f, rest) =>
      if f.kind == STDOUT then Receive(rest, out + [f.payload], err)
      else if f.kind == STDERR then Receive(rest, out, err + [f.payload])
      else if f.kind == EXIT && |f.payload| == 4 then Outcome(out, err, FromBE32(f.payload))
      else Outcome(out, err, FAILURE_CODE)
  }

  /** The same loop, in place on the connection. */
  method RunHelper(conn: Pipe) returns (r: Outcome)
    modifies conn
    ensures r == Receive(old(conn.buf), [], [])
    ensures ReadFrame(old(conn.buf)).Failed? ==> r == Outcome([], [], 97)
    ensures |conn.buf| <= |old(conn.buf)|
  {
    var out: seq<Bytes>, err: seq<Bytes> := [], [];
    while true
      invariant Receive(conn.buf, out, err) == Receive(old(conn.buf), [], [])
      invariant |conn.buf| <= |old(conn.buf)|
      decreases |conn.buf|
    {
      var frame := conn.TakeFrame();
      if frame.Failed? {
        return Outcome(out, err, FAILURE_CODE);
      }
      var f := frame.value;
      if f.kind == STDOUT {
        out := out + [f.payload];
      } else if f.kind == STDERR {
        err := err + [f.payload];
      } else if f.kind == EXIT {
        if |f.payload| != 4 {
          return Outcome(out, err, FAILURE_CODE);
        }
        return Outcome(out, err, FromBE32(f.payload));
      } else {
        return Outcome(out, err, FAILURE_CODE);
      }
    }
  }

  function PayloadsFront(fs: seq<Frame>, kind: byte): seq<Bytes> {
    if fs == [] then []
    else (if fs[0].kind == kind then [fs[0].payload] else []) + PayloadsFront(fs[1..], kind)
  }

  lemma {:induction false} PayloadsAgree(fs: seq<Frame>, kind: byte)
    ensures Payloads(fs, kind) == PayloadsFront(fs, kind)
    decreases |fs|
  {
    if |fs| == 1 {
      assert fs[..0] == [] && fs[1..] == [];
    } else if 1 < |fs| {
      var n := |fs| - 1;
      PayloadsAgree(fs[1..], kind);
      PayloadsAgree(fs[..n], kind);
      PayloadsAgree(fs[1..][..n - 1], kind);
      assert fs[1..][..n - 1] == fs[..n][1..];
    }
  }

  lemma {:induction false} ReceiveStreams(fs: seq<Frame>, rest: Bytes, out: seq<Bytes>, err: seq<Bytes>)
    requires StreamFrames(fs)
    ensures AllFit(fs)
    ensures Receive(Encode(fs) + rest, out, err)
         == Receive(rest, out + PayloadsFront(fs, STDOUT), err + PayloadsFront(fs, STDERR))
  {
    hide ReadFrame;
    hide EncodeFrame;
    hide FromBE32;
    if fs == [] {
      assert Encode(fs) + rest == rest;
      assert out + [] == out && err + [] == err;
    } else {
      var f := fs[0];
      var tail := Encode(fs[1..]) + rest;
      assert Encode(fs) + rest == EncodeFrame(f) + tail;
      ReadEncodedFrame(f, tail);
      assert f.kind in {STDOUT, STDERR};
      if f.kind == STDOUT {
        ReceiveStreams(fs[1..], rest, out + [f.payload], err);
        assert out + [f.payload] + PayloadsFront(fs[1..], STDOUT) == out + PayloadsFront(fs, STDOUT);
        assert PayloadsFront(fs, STDERR) == PayloadsFront(fs[1..], STDERR);
      } else {
        ReceiveStreams(fs[1..], rest, out, err + [f.payload]);
        assert err + [f.payload] + PayloadsFront(fs[1..], STDERR) == err + PayloadsFront(fs, STDERR);
        assert PayloadsFront(fs, STDOUT) == PayloadsFront(fs[1..], STDOUT);
      }
    }
  }

  lemma ReceiveExit(code: nat, rest: Bytes, out: seq<Bytes>, err: seq<Bytes>)
    requires code < TWO_TO_32
    ensures Receive(EncodeFrame(ExitFrame(code)) + rest, out, err) == Outcome(out, err, code)
  {
    hide ReadFrame;
    hide EncodeFrame;
    hide BE32;
    hide FromBE32;
    ReadEncodedFrame(ExitFrame(code), rest);
    BE32RoundTrip(code);
  }

  lemma ReceiveStreamsThenExit(fs: seq<Frame>, code: nat)
    requires StreamFrames(fs) && code < TWO_TO_32
    ensures AllFit(fs + [ExitFrame(code)])
    ensures Receive(Encode(fs + [ExitFrame(code)]), [], [])
         == Outcome(Payloads(fs, STDOUT), Payloads(fs, STDERR), code)
  {
    hide Receive;
    hide Encode;
    hide BE32;
    var exit := ExitFrame(code);
    EncodeAppend(fs, [exit]);
    EncodeSingle(exit);
    ReceiveStreams(fs, EncodeFrame(exit), [], []);
    PayloadsAgree(fs, STDOUT);
    PayloadsAgree(fs, STDERR);
    assert EncodeFrame(exit) + [] == EncodeFrame(exit);
    ReceiveExit(code, [], [] + PayloadsFront(fs, STDOUT), [] + PayloadsFront(fs, STDERR));
  }

  // ----- main results

  /** At every moment of every interleaving the wire decodes to whole frames, and no frame is torn by the other copier. */
  lemma EveryStateDecodes(run: seq<State>, i: nat)
    requires IsRun(run) && i < |run|
    ensures DecodeAll(run[i].wire).frames == run[i].log
  {
    RunKeepsInv(run, i);
    hide Encode;
    hide Payloads;
    var s := run[i];
    DecodeEncodeThen(s.log, Partial(s));
    PartialIsNoFrame(s);
  }

  lemma PartialIsNoFrame(s: State)
    requires s.main.ExitHeaderSent? ==> s.main.code < TWO_TO_32
    ensures DecodeAll(Partial(s)).frames == []
  {
    hide BE32;
    hide FromBE32;
    if Partial(s) != [] {
      var f := if s.main.ExitHeaderSent? then ExitFrame(s.main.code)
               else if s.out.pc.HeaderSent? then ChunkFrame(OutCopier, s.out.pc.chunk)
               else ChunkFrame(ErrCopier, s.err.pc.chunk);
      assert EncodeFrame(f)[..5] == Partial(s);
      CutFrame(f, 5);
    }
  }

  /**
   Every finished run has written stdout and stderr frames followed by one exit frame, which is the last,
   and the helper writes each stream's chunks in the order its copier read them and returns the sent code.
   */
  lemma FinishedRunIsDelivered(run: seq<State>)
    requires IsRun(run)
    requires run[|run| - 1].main.Finished?
    ensures var s := run[|run| - 1];
            && s.main.code < TWO_TO_32
            && s.log != []
            && StreamFrames(s.log[..|s.log| - 1])
            && DecodeAll(s.wire) == Decoded(s.log, Eof)
            && s.log[|s.log| - 1] == ExitFrame(s.main.code)
            && Receive(s.wire, [], []) == Outcome(s.out.read, s.err.read, s.main.code)
            && forall chunk :: chunk in s.out.read || chunk in s.err.read ==> 0 < |chunk| <= 32_768
  {
    hide Receive;
    hide Encode;
    hide DecodeAll;
    hide BE32;
    var s := run[|run| - 1];
    RunKeepsInv(run, |run| - 1);
    var body := s.log[..|s.log| - 1];
    assert s.log == body + [ExitFrame(s.main.code)];
    assert s.wire == Encode(s.log);
    DecodeEncode(s.log);
    ReceiveStreamsThenExit(body, s.main.code);
    assert Payloads(s.log, STDOUT) == Payloads(body, STDOUT);
    assert Payloads(s.log, STDERR) == Payloads(body, STDERR);
  }

  /** A connection cut anywhere before the end is never taken for success: the helper writes a prefix of each stream and returns 97. */
  lemma CutConnectionFails(fs: seq<Frame>, code: nat, k: nat)
    requires StreamFrames(fs) && code < TWO_TO_32
    requires AllFit(fs + [ExitFrame(code)])
    requires k < |Encode(fs + [ExitFrame(code)])|
    ensures var r := Receive(Encode(fs + [ExitFrame(code)])[..k], [], []);
            && r.code == 97
            && r.out <= Payloads(fs, STDOUT)
            && r.err <= Payloads(fs, STDERR)
  {
    hide Receive;
    hide Encode;
    hide DecodeAll;
    hide BE32;
    var all := fs + [ExitFrame(code)];
    var cut := Encode(all)[..k];
    var m := DecodeStrictPrefix(all, k);
    var left := DecodeIsEncoding(cut);
    assert all[..m] == fs[..m];
    ReceiveStreams(fs[..m], left, [], []);
    ReceiveNothing(left, [] + PayloadsFront(fs[..m], STDOUT), [] + PayloadsFront(fs[..m], STDERR));
    PayloadsPrefix(fs, m, STDOUT);
    PayloadsPrefix(fs, m, STDERR);
  }

  lemma ReceiveNothing(b: Bytes, out: seq<Bytes>, err: seq<Bytes>)
    requires ReadFrame(b).Failed?
    ensures Receive(b, out, err) == Outcome(out, err, FAILURE_CODE)
  {
    hide ReadFrame;
  }

  lemma {:induction false} PayloadsPrefix(fs: seq<Frame>, m: nat, kind: byte)
    requires m <= |fs|
    ensures PayloadsFront(fs[..m], kind) <= Payloads(fs, kind)
    decreases |fs|
  {
    PayloadsAgree(fs[..m], kind);
    if m < |fs| {
      var n := |fs| - 1;
      assert fs[..n][..m] == fs[..m];
      PayloadsPrefix(fs[..n], m, kind);
    } else {
      assert fs[..m] == fs;
    }
  }

  /** A rejected or unreadable request reaches the helper as its message on stderr and the given code. */
  lemma RejectionIsReported(message: Bytes, code: int)
    requires |message| <= MAX_FRAME_SIZE
    requires code < TWO_TO_32
    ensures Receive(EncodeFrame(Frame(STDERR, message)) + EncodeFrame(ExitFrame(ExitCode(code))), [], [])
         == Outcome([], [message], if code < 0 then 1 else code)
  {
    hide Receive;
    hide BE32;
    var f := Frame(STDERR, message);
    var exit := ExitFrame(ExitCode(code));
    EncodeSingle(f);
    ReceiveStreams([f], EncodeFrame(exit), [], []);
    assert PayloadsFront([f], STDOUT) == [];
    assert PayloadsFront([f], STDERR) == [message];
    assert EncodeFrame(exit) + [] == EncodeFrame(exit);
    assert [] + [message] == [message];
    ReceiveExit(ExitCode(code), [], [], [message]);
  }

  // ----- when the helper reports success

  /** The helper returns 0 only for what a finished session sends: stdout and stderr frames and then an exit frame
      carrying zero. Their payloads are what it wrote. */
  lemma {:induction false} SuccessMeansFinished(b: Bytes, out: seq<Bytes>, err: seq<Bytes>) returns (fs: seq<Frame>, rest: Bytes)
    requires Receive(b, out, err).code == 0
    ensures AllFit(fs) && forall i :: 0 <= i < |fs| ==> fs[i].kind == 2 || fs[i].kind == 3
    ensures b == Encode(fs) + [5, 0, 0, 0, 4, 0, 0, 0, 0] + rest
    ensures Receive(b, out, err) == Outcome(out + PayloadsFront(fs, 2), err + PayloadsFront(fs, 3), 0)
    decreases |b|
  {
    hide ReadFrame;
    hide EncodeFrame;
    hide FromBE32;
    var f := ReadFrame(b).value;
    ReadFrameIsEncoding(b);
    if f.kind == EXIT {
      fs, rest := [], ReadFrame(b).rest;
      ZeroExit(f);
      assert out + [] == out && err + [] == err;
      assert Encode([]) + [5, 0, 0, 0, 4, 0, 0, 0, 0] == [5, 0, 0, 0, 4, 0, 0, 0, 0];
    } else {
      var out', err' := if f.kind == STDOUT then out + [f.payload] else out, if f.kind == STDOUT then err else err + [f.payload];
      var fs';
      fs', rest := SuccessMeansFinished(ReadFrame(b).rest, out', err');
      fs := [f] + fs';
      Delivered(f, fs', out, 2);
      Delivered(f, fs', err, 3);
      FirstEncoded(f, fs', [5, 0, 0, 0, 4, 0, 0, 0, 0], rest);
    }
  }

  lemma ZeroExit(f: Frame)
    requires Fits(f) && f.kind == EXIT && |f.payload| == 4 && FromBE32(f.payload) == 0
    ensures EncodeFrame(f) == [5, 0, 0, 0, 4, 0, 0, 0, 0]
  {
    FromBE32RoundTrip(f.payload);
    assert BE32(0) == [0, 0, 0, 0] && BE32(4) == [0, 0, 0, 4];
  }

  lemma Delivered(f: Frame, fs: seq<Frame>, written: seq<Bytes>, kind: byte)
    ensures (if f.kind == kind then written + [f.payload] else written) + PayloadsFront(fs, kind)
         == written + PayloadsFront([f] + fs, kind)
  {
    assert ([f] + fs)[1..] == fs;
  }

  lemma FirstEncoded(f: Frame, fs: seq<Frame>, exit: Bytes, rest: Bytes)
    requires Fits(f) && AllFit(fs)
    ensures AllFit([f] + fs)
    ensures EncodeFrame(f) + (Encode(fs) + exit + rest) == Encode([f] + fs) + exit + rest
  {
    hide EncodeFrame;
    assert ([f] + fs)[1..] == fs;
  }

  /** And it returns 0 for all of that. */
  lemma FinishedMeansSuccess(fs: seq<Frame>, rest: Bytes)
    requires AllFit(fs) && forall i :: 0 <= i < |fs| ==> fs[i].kind == 2 || fs[i].kind == 3
    ensures Receive(Encode(fs) + [5, 0, 0, 0, 4, 0, 0, 0, 0] + rest, [], [])
         == Outcome(PayloadsFront(fs, 2), PayloadsFront(fs, 3), 0)
  {
    hide Receive;
    hide Encode;
    var exit := ExitFrame(0);
    assert BE32(0) == [0, 0, 0, 0] && BE32(4) == [0, 0, 0, 4];
    assert EncodeFrame(exit) == [5, 0, 0, 0, 4, 0, 0, 0, 0];
    ReceiveStreams(fs, EncodeFrame(exit) + rest, [], []);
    assert Encode(fs) + (EncodeFrame(exit) + rest) == Encode(fs) + EncodeFrame(exit) + rest;
    ReceiveExit(0, rest, [] + PayloadsFront(fs, 2), [] + PayloadsFront(fs, 3));
  }

  /** After the frames of the streams, a read that fails, an exit payload that is not four bytes, and a frame of another
      type all give 97; what came before them has been written. */
  lemma OtherwiseFailure(fs: seq<Frame>, left: Bytes)
    requires AllFit(fs) && forall i :: 0 <= i < |fs| ==> fs[i].kind == 2 || fs[i].kind == 3
    requires var r := ReadFrame(left);
             || r.Failed?
             || (r.value.kind == 5 && |r.value.payload| != 4)
             || (r.value.kind != 2 && r.value.kind != 3 && r.value.kind != 5)
    ensures Receive(Encode(fs) + left, [], []) == Outcome(PayloadsFront(fs, 2), PayloadsFront(fs, 3), 97)
  {
    hide ReadFrame;
    hide Encode;
    ReceiveStreams(fs, left, [], []);
    assert [] + PayloadsFront(fs, 2) == PayloadsFront(fs, 2) && [] + PayloadsFront(fs, 3) == PayloadsFront(fs, 3);
  }
}
