/** Which states the broker's interleavings reach, exactly, and that none of them is stuck. */
module BrokerReach {
  import opened Wrappers
  import opened Frames
  import opened Broker

  ghost predicate Reached(s: State) {
    exists run :: IsRun(run) && run[|run| - 1] == s
  }

  lemma ReachedNext(s: State, t: State)
    requires Reached(s) && Next(s, t)
    ensures Reached(t)
  {
    hide Next;
    var run :| IsRun(run) && run[|run| - 1] == s;
    var more := run + [t];
    forall i | 0 < i < |more|
      ensures Next(more[i - 1], more[i])
    {
      assert i < |run| ==> more[i - 1] == run[i - 1] && more[i] == run[i];
    }
    assert IsRun(more) && more[|more| - 1] == t;
  }

  function Other(who: Who): Who {
    if who == OutCopier then ErrCopier else OutCopier
  }

  /** A copier that has just sent a payload sent the last frame there is. */
  predicate Told(s: State, who: Who) {
    s.Get(who).pc.PayloadSent? ==> s.log != [] && s.log[|s.log| - 1].kind == Kind(who)
  }

  lemma CopierTold(s: State, t: State, who: Who)
    requires Told(s, OutCopier) && Told(s, ErrCopier) && CopierStep(s, t, who)
    requires Holds(s.Get(who).pc) ==> !Holds(s.Get(Other(who)).pc)
    ensures Told(t, OutCopier) && Told(t, ErrCopier)
  {
    hide Header;
  }

  lemma NextTold(s: State, t: State)
    requires Inv(s) && Told(s, OutCopier) && Told(s, ErrCopier) && Next(s, t)
    ensures Told(t, OutCopier) && Told(t, ErrCopier)
  {
    hide Encode;
    hide Payloads;
    hide Header;
    hide BE32;
    if who :| CopierStep(s, t, who) {
      hide CopierStep;
      CopierTold(s, t, who);
    }
  }

  lemma {:induction false} RunTold(run: seq<State>, i: nat)
    requires IsRun(run) && i < |run|
    ensures Told(run[i], OutCopier) && Told(run[i], ErrCopier)
  {
    if i > 0 {
      RunTold(run, i - 1);
      RunKeepsInv(run, i - 1);
      hide Inv;
      hide Next;
      assert Next(run[i - 1], run[i]);
      NextTold(run[i - 1], run[i]);
    }
  }

  // ----- one step back

  function Rank(pc: Pc): nat {
    match pc
    case PayloadSent(_) => 0
    case Reading => 1
    case Blocked(_, _) => 2
    case Locked(_, _) => 3
    case HeaderSent(_, _) => 4
    case Stopped => 5
  }

  function Height(s: State): nat {
    Rank(s.out.pc) + Rank(s.err.pc) + if s.main == Joining then 0 else 1
  }

  ghost predicate Good(s: State) {
    Inv(s) && Told(s, OutCopier) && Told(s, ErrCopier)
  }

  ghost predicate Before(p: State, s: State) {
    Good(p) && Next(p, s) && (|p.log| < |s.log| || (|p.log| == |s.log| && Height(p) < Height(s)))
  }

  lemma BeforeStopped(s: State, who: Who) returns (p: State)
    requires Good(s) && s.main == Joining && s.Get(who).pc == Stopped
    ensures Before(p, s)
  {
    hide Encode;
    hide Payloads;
    hide Header;
    p := s.Set(who, s.Get(who).(pc := Reading));
    assert ReadEnd(p, s, who);
    assert CopierStep(p, s, who);
  }

  lemma BeforeBlocked(s: State, who: Who) returns (p: State)
    requires Good(s) && s.main == Joining && s.Get(who).pc.Blocked?
    ensures Before(p, s)
  {
    hide Encode;
    hide Payloads;
    hide Header;
    var c := s.Get(who);
    var n := |c.read| - 1;
    assert c.read == Payloads(s.log, Kind(who)) + [c.pc.chunk];
    assert c.read == c.read[..n] + [c.pc.chunk];
    p := s.Set(who, Copier(Reading, c.read[..n]));
    assert ReadChunk(p, s, who, c.pc.chunk, c.pc.last);
    assert CopierStep(p, s, who);
  }

  lemma BeforeLocked(s: State, who: Who) returns (p: State)
    requires Good(s) && s.main == Joining && s.Get(who).pc.Locked?
    ensures Before(p, s)
  {
    hide Encode;
    hide Payloads;
    hide Header;
    var c := s.Get(who);
    p := s.Set(who, c.(pc := Blocked(c.pc.chunk, c.pc.last))).(lock := None);
    assert TakeLock(p, s, who);
    assert CopierStep(p, s, who);
  }

  lemma BeforeHeader(s: State, who: Who) returns (p: State)
    requires Good(s) && s.main == Joining && s.Get(who).pc.HeaderSent?
    ensures Before(p, s)
  {
    hide Encode;
    hide Payloads;
    hide Header;
    var c := s.Get(who);
    p := s.Set(who, c.(pc := Locked(c.pc.chunk, c.pc.last))).(wire := Encode(s.log));
    assert Encode(s.log) + [] == Encode(s.log);
    assert SendHeader(p, s, who);
    assert CopierStep(p, s, who);
  }

  /** What had been sent before the last frame, and the frame itself. */
  lemma LastSent(s: State, who: Who) returns (front: seq<Frame>, chunk: Chunk)
    requires Good(s) && s.main == Joining && s.Get(who).pc.PayloadSent?
    ensures s.log == front + [ChunkFrame(who, chunk)] && AllFit(front) && StreamFrames(front)
    ensures s.wire == Encode(front) + Header(ChunkFrame(who, chunk)) + chunk
    ensures s.Get(who).read == Payloads(front, Kind(who)) + [chunk]
    ensures Payloads(s.log, Kind(Other(who))) == Payloads(front, Kind(Other(who)))
  {
    var c, n := s.Get(who), |s.log| - 1;
    var f := s.log[n];
    front := s.log[..n];
    assert s.log == front + [f];
    LogGrows(front, f);
    hide Encode;
    hide Payloads;
    hide Header;
    assert c.read == Payloads(front, Kind(who)) + [f.payload];
    chunk := c.read[|c.read| - 1];
    assert chunk == f.payload && f == ChunkFrame(who, chunk);
  }

  lemma BeforePayload(s: State, who: Who) returns (p: State)
    requires Good(s) && s.main == Joining && s.Get(who).pc.PayloadSent?
    ensures Before(p, s)
  {
    var front, chunk := LastSent(s, who);
    hide Encode;
    hide Payloads;
    hide Header;
    var c := s.Get(who);
    p := s.Set(who, c.(pc := HeaderSent(chunk, c.pc.last))).(wire := Encode(front) + Header(ChunkFrame(who, chunk)), log := front);
    assert SendPayload(p, s, who);
    assert CopierStep(p, s, who);
  }

  lemma NoHolder(s: State)
    requires Inv(s) && !Holds(s.out.pc) && !Holds(s.err.pc)
    ensures s.lock == None
  {
    assert s.lock.Some? ==> s.lock.value == OutCopier || s.lock.value == ErrCopier;
  }

  lemma BeforeRelease(s: State) returns (p: State)
    requires Good(s) && s.main == Joining && s.out.pc == Reading && s.err.pc == Reading && s.log != []
    ensures Before(p, s)
  {
    hide Encode;
    hide Payloads;
    hide Header;
    NoHolder(s);
    var who := if s.log[|s.log| - 1].kind == STDOUT then OutCopier else ErrCopier;
    p := s.Set(who, s.Get(who).(pc := PayloadSent(false))).(lock := Some(who));
    assert ReleaseLock(p, s, who);
    assert CopierStep(p, s, who);
  }

  lemma BeforeExit(s: State) returns (p: State)
    requires Good(s) && s.main != Joining
    ensures Before(p, s)
  {
    hide Payloads;
    hide Header;
    hide BE32;
    var code := s.main.code;
    if s.main.ExitHeaderSent? {
      hide Encode;
      p := s.(main := Joining, wire := Encode(s.log));
      assert Encode(s.log) + [] == Encode(s.log);
      assert SendExitHeader(p, s, code);
    } else {
      var n := |s.log| - 1;
      var front := s.log[..n];
      assert s.log == front + [ExitFrame(code)];
      LogGrows(front, ExitFrame(code));
      hide Encode;
      p := s.(main := ExitHeaderSent(code), wire := Encode(front) + Header(ExitFrame(code)), log := front);
      assert Encode(s.log) + [] == Encode(s.log);
      assert SendExitPayload(p, s);
    }
  }

  lemma {:induction false} GoodIsReached(s: State)
    requires Good(s)
    ensures Reached(s)
    decreases |s.log|, Height(s)
  {
    var p: State;
    if s.main != Joining {
      p := BeforeExit(s);
    } else if who :| s.Get(who).pc == Stopped {
      p := BeforeStopped(s, who);
    } else if who :| s.Get(who).pc.Blocked? {
      p := BeforeBlocked(s, who);
    } else if who :| s.Get(who).pc.Locked? {
      p := BeforeLocked(s, who);
    } else if who :| s.Get(who).pc.HeaderSent? {
      p := BeforeHeader(s, who);
    } else if who :| s.Get(who).pc.PayloadSent? {
      p := BeforePayload(s, who);
    } else if s.log != [] {
      assert s.Get(OutCopier).pc == Reading && s.Get(ErrCopier).pc == Reading;
      p := BeforeRelease(s);
    } else {
      assert s.Get(OutCopier).pc == Reading && s.Get(ErrCopier).pc == Reading;
      Start(s);
      return;
    }
    hide Good;
    hide Next;
    GoodIsReached(p);
    ReachedNext(p, s);
  }

  lemma Start(s: State)
    requires Inv(s) && s.main == Joining && s.out.pc == Reading && s.err.pc == Reading && s.log == []
    ensures Reached(s)
  {
    NoHolder(s);
    assert s.wire == [];
    assert IsRun([s]) && [s][0] == s;
  }

  // ----- the results

  /** The interleavings reach exactly the states the invariant allows in which a copier that has just sent a payload
      sent the last frame: no other state, and none less. */
  lemma ReachedIff(s: State)
    ensures Reached(s) <==> Inv(s) && Told(s, OutCopier) && Told(s, ErrCopier)
  {
    if Reached(s) {
      var run :| IsRun(run) && run[|run| - 1] == s;
      RunKeepsInv(run, |run| - 1);
      RunTold(run, |run| - 1);
    }
    if Inv(s) && Told(s, OutCopier) && Told(s, ErrCopier) {
      GoodIsReached(s);
    }
  }

  /** No deadlock: whatever has happened, the run goes on until the exit frame is out. */
  lemma NeverStuck(s: State)
    requires Reached(s) && !s.main.Finished?
    ensures exists t :: Next(s, t) && Reached(t)
  {
    ReachedIff(s);
    var t := SomeStep(s);
    hide Next;
    hide Inv;
    ReachedNext(s, t);
  }

  lemma SomeStep(s: State) returns (t: State)
    requires Inv(s) && !s.main.Finished?
    ensures Next(s, t)
  {
    hide Encode;
    hide Payloads;
    hide Header;
    hide BE32;
    if s.main.ExitHeaderSent? {
      var code := s.main.code;
      t := s.(main := Finished(code), wire := s.wire + BE32(code), log := s.log + [ExitFrame(code)]);
      assert SendExitPayload(s, t);
    } else if s.out.pc == Stopped && s.err.pc == Stopped {
      t := s.(main := ExitHeaderSent(0), wire := s.wire + Header(ExitFrame(0)));
      assert SendExitHeader(s, t, 0);
    } else {
      var who := if s.lock.Some? then s.lock.value else if s.out.pc == Stopped then ErrCopier else OutCopier;
      t := CopierMove(s, who);
      assert CopierStep(s, t, who);
    }
  }

  /** A copier is held up by nothing but the lock. */
  lemma CopierMove(s: State, who: Who) returns (t: State)
    requires s.Get(who).pc != Stopped && (s.Get(who).pc.Blocked? ==> s.lock == None)
    ensures CopierStep(s, t, who)
  {
    hide Header;
    var c := s.Get(who);
    match c.pc
    case Reading =>
      t := s.Set(who, c.(pc := Stopped));
    case Blocked(chunk, last) =>
      t := s.Set(who, c.(pc := Locked(chunk, last))).(lock := Some(who));
    case Locked(chunk, last) =>
      t := s.Set(who, c.(pc := HeaderSent(chunk, last))).(wire := s.wire + Header(ChunkFrame(who, chunk)));
    case HeaderSent(chunk, last) =>
      t := s.Set(who, c.(pc := PayloadSent(last))).(wire := s.wire + chunk, log := s.log + [ChunkFrame(who, chunk)]);
    case PayloadSent(last) =>
      t := s.Set(who, c.(pc := if last then Stopped else Reading)).(lock := None);
  }

  /** Frames a copier may send: one of the two streams, at most 32 KiB, never empty. */
  predicate ChunkFrames(fs: seq<Frame>) {
    forall f :: f in fs ==> f.kind in {STDOUT, STDERR} && 0 < |f.payload| <= 32 * 1024
  }

  lemma {:induction false} PayloadOf(fs: seq<Frame>, f: Frame)
    requires f in fs
    ensures f.payload in Payloads(fs, f.kind)
  {
    var n := |fs| - 1;
    if fs[n] != f {
      assert fs == fs[..n] + [fs[n]];
      PayloadOf(fs[..n], f);
    }
  }

  lemma {:induction false} OfPayload(fs: seq<Frame>, kind: byte)
    ensures forall p :: p in Payloads(fs, kind) ==> exists f :: f in fs && f.kind == kind && f.payload == p
  {
    if fs != [] {
      var n := |fs| - 1;
      OfPayload(fs[..n], kind);
      assert fs == fs[..n] + [fs[n]];
      forall p | p in Payloads(fs, kind)
        ensures exists f :: f in fs && f.kind == kind && f.payload == p
      {
        if p in Payloads(fs[..n], kind) {
          var f :| f in fs[..n] && f.kind == kind && f.payload == p;
          assert f in fs;
        } else {
          assert fs[n] in fs;
        }
      }
    }
  }

  /** The frames of finished runs are any chunks of the two streams in any order, and then one exit frame. */
  lemma FinishedLogsIff(fs: seq<Frame>, code: nat)
    requires code < TWO_TO_32
    ensures (exists s :: Reached(s) && s.main == Finished(code) && s.log == fs + [ExitFrame(code)]) <==> ChunkFrames(fs)
  {
    if s :| Reached(s) && s.main == Finished(code) && s.log == fs + [ExitFrame(code)] {
      SentAreChunks(s, fs, code);
    }
    if ChunkFrames(fs) {
      var s := FinishedState(fs, code);
      hide Inv;
      ReachedIff(s);
    }
  }

  lemma SentAreChunks(s: State, fs: seq<Frame>, code: nat)
    requires Reached(s) && code < TWO_TO_32 && s.main == Finished(code) && s.log == fs + [ExitFrame(code)]
    ensures ChunkFrames(fs)
  {
    ReachedIff(s);
    assert s.log[..|fs|] == fs;
    hide BE32;
    forall f | f in fs
      ensures f.kind in {STDOUT, STDERR} && 0 < |f.payload| <= 32 * 1024
    {
      var i :| 0 <= i < |fs| && fs[i] == f;
      assert fs[i].kind in {STDOUT, STDERR};
      assert f == s.log[i];
      PayloadOf(s.log, f);
      var c := if f.kind == STDOUT then s.out else s.err;
      assert f.payload in c.read;
      var j :| 0 <= j < |c.read| && c.read[j] == f.payload;
    }
  }

  lemma Chunks(fs: seq<Frame>, kind: byte) returns (chunks: seq<Chunk>)
    requires ChunkFrames(fs)
    ensures chunks == Payloads(fs, kind)
  {
    OfPayload(fs, kind);
    var p := Payloads(fs, kind);
    forall i | 0 <= i < |p|
      ensures 0 < |p[i]| <= CHUNK_SIZE
    {
      assert p[i] in p;
    }
    chunks := p;
  }

  lemma ExitLogged(fs: seq<Frame>, code: nat)
    requires ChunkFrames(fs) && code < TWO_TO_32
    ensures var all := fs + [ExitFrame(code)];
            && AllFit(all) && StreamFrames(fs) && all[..|all| - 1] == fs && all[|all| - 1] == ExitFrame(code)
            && Payloads(all, STDOUT) == Payloads(fs, STDOUT) && Payloads(all, STDERR) == Payloads(fs, STDERR)
  {
    hide Encode;
    hide Payloads;
    hide BE32;
    assert forall i :: 0 <= i < |fs| ==> fs[i] in fs;
    LogGrows(fs, ExitFrame(code));
  }

  lemma FinishedState(fs: seq<Frame>, code: nat) returns (s: State)
    requires ChunkFrames(fs) && code < TWO_TO_32
    ensures Inv(s) && Told(s, OutCopier) && Told(s, ErrCopier)
    ensures s.main == Finished(code) && s.log == fs + [ExitFrame(code)]
  {
    var out := Chunks(fs, STDOUT);
    var err := Chunks(fs, STDERR);
    var all := fs + [ExitFrame(code)];
    ExitLogged(fs, code);
    hide ChunkFrames;
    hide AllFit;
    hide StreamFrames;
    hide Encode;
    hide Payloads;
    hide BE32;
    s := State(Copier(Stopped, out), Copier(Stopped, err), None, Finished(code), Encode(all), all);
    assert Encode(all) + [] == Encode(all);
    assert out + [] == out && err + [] == err;
  }

  /** A copier whose read reported the end of its stream, now or before. */
  predicate Ended(pc: Pc) {
    pc == Stopped || (pc.Blocked? && pc.last) || (pc.Locked? && pc.last) || (pc.HeaderSent? && pc.last)
    || (pc.PayloadSent? && pc.last)
  }

  /** Once its stream has ended a copier reads no more; it sends what it has and stops. */
  lemma {:induction false} NothingAfterEnd(run: seq<State>, i: nat, j: nat, who: Who)
    requires IsRun(run) && i <= j < |run| && Ended(run[i].Get(who).pc)
    ensures Ended(run[j].Get(who).pc) && run[j].Get(who).read == run[i].Get(who).read
    decreases j
  {
    hide Next;
    hide Ended;
    if i < j {
      NothingAfterEnd(run, i, j - 1, who);
      assert Next(run[j - 1], run[j]);
      StaysEnded(run[j - 1], run[j], who);
    }
  }

  lemma StaysEnded(s: State, t: State, who: Who)
    requires Next(s, t) && Ended(s.Get(who).pc)
    ensures Ended(t.Get(who).pc) && t.Get(who).read == s.Get(who).read
  {
    hide Header;
    hide BE32;
  }
}
