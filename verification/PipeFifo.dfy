/** `devpipe_read` and `devpipe_write` of lib/pipe.c on a shared page, one reader and
    one writer interleaved at single memory accesses. */
module PipeFifo {

  const PIPEBUFSIZ: nat := 32

  type Bytes = seq<nat>

  /** The reader's next access; `i` of `n` bytes are read so far in this call. */
  datatype Reader =
    | RIdle
    | RLoadR(i: nat, n: nat)
    | RLoadW(i: nat, n: nat, r: nat)
    | RClosed(n: nat, w: nat)           // the pipe was empty at position w: ask whether it is closed
    | RLoadIndex(i: nat, n: nat)
    | RLoadByte(i: nat, n: nat, r: nat)
    | RLoadPos(i: nat, n: nat, b: nat)
    | RStorePos(i: nat, n: nat, b: nat, r: nat)

  /** The writer's next access; `d` is what is left to write. */
  datatype Writer =
    | WIdle
    | WLoadW(d: Bytes)
    | WLoadR(d: Bytes, w: nat)
    | WClosed(d: Bytes)                 // the pipe was full: ask whether the readers are gone
    | WLoadIndex(d: Bytes)
    | WStoreByte(d: Bytes, w: nat)
    | WLoadPos(d: Bytes)
    | WStorePos(d: Bytes, w: nat)

  /** `stored` and `returned` are the bytes each side has finished with; `gone` says that
      no write end is left, `deaf` that no read end is. */
  datatype State = State(rpos: nat, wpos: nat, buf: Bytes, gone: bool, deaf: bool, rd: Reader, wr: Writer,
                         stored: Bytes, returned: Bytes)

  /** `KillWriter` and `KillReader`: destroyed at any moment, by a parent or a fatal fault; the
      kernel unmaps both pages of the pipe at once. */
  datatype Label =
    | Read(n: nat)
    | Write(d: Bytes)
    | CloseWriter
    | CloseReader
    | StepReader
    | StepWriter
    | KillWriter
    | KillReader

  predicate Enabled(s: State, l: Label) {
    match l
    case Read(n) => s.rd.RIdle? && !s.deaf
    case Write(d) => s.wr.WIdle? && !s.gone
    case CloseWriter => s.wr.WIdle?
    case CloseReader => s.rd.RIdle?
    case StepReader => !s.rd.RIdle?
    case StepWriter => !s.wr.WIdle?
    case KillWriter => true
    case KillReader => true
  }

  function At(b: Bytes, i: nat): nat {
    if i < |b| then b[i] else 0
  }

  function NextReader(s: State): State {
    match s.rd
    case RIdle => s
    case RLoadR(i, n) => s.(rd := RLoadW(i, n, s.rpos))
    case RLoadW(i, n, r) =>
      if r == s.wpos then s.(rd := if i > 0 then RIdle else RClosed(n, s.wpos)) else s.(rd := RLoadIndex(i, n))
    case RClosed(n, w) => s.(rd := if s.gone then RIdle else RLoadR(0, n))
    case RLoadIndex(i, n) => s.(rd := RLoadByte(i, n, s.rpos))
    case RLoadByte(i, n, r) => s.(rd := RLoadPos(i, n, At(s.buf, r % PIPEBUFSIZ)))
    case RLoadPos(i, n, b) => s.(rd := RStorePos(i, n, b, s.rpos))
    case RStorePos(i, n, b, r) =>
      s.(rpos := r + 1, returned := s.returned + [b], rd := if i + 1 < n then RLoadR(i + 1, n) else RIdle)
  }

  function NextWriter(s: State): State {
    match s.wr
    case WIdle => s
    case WLoadW(d) => s.(wr := WLoadR(d, s.wpos))
    case WLoadR(d, w) => s.(wr := if w >= s.rpos + PIPEBUFSIZ then WClosed(d) else WLoadIndex(d))
    case WClosed(d) => s.(wr := if s.deaf then WIdle else WLoadW(d))
    case WLoadIndex(d) => s.(wr := WStoreByte(d, s.wpos))
    case WStoreByte(d, w) =>
      s.(buf := if w % PIPEBUFSIZ < |s.buf| then s.buf[w % PIPEBUFSIZ := At(d, 0)] else s.buf, wr := WLoadPos(d))
    case WLoadPos(d) => s.(wr := WStorePos(d, s.wpos))
    case WStorePos(d, w) =>
      s.(wpos := w + 1, stored := s.stored + [At(d, 0)], wr := if |d| > 1 then WLoadW(d[1..]) else WIdle)
  }

  function Next(s: State, l: Label): State {
    match l
    case Read(n) => if n == 0 then s else s.(rd := RLoadR(0, n))
    case Write(d) => if d == [] then s else s.(wr := WLoadW(d))
    case CloseWriter => s.(gone := true)
    case CloseReader => s.(deaf := true)
    case StepReader => NextReader(s)
    case StepWriter => NextWriter(s)
    case KillWriter => s.(gone := true, wr := WIdle)
    case KillReader => s.(deaf := true, rd := RIdle)
  }

  function Start(buf: Bytes): State {
    State(0, 0, buf, false, false, RIdle, WIdle, [], [])
  }

  // ---------------------------------------------------------------- invariant

  /** Byte number `k`, if stored and not yet read, is in its slot. */
  predicate SlotOk(s: State, k: nat) {
    s.rpos <= k < s.wpos && k < |s.stored| ==> At(s.buf, k % PIPEBUFSIZ) == s.stored[k]
  }

  predicate ReaderOk(s: State) {
    match s.rd
    case RIdle => true
    case RLoadR(_, _) => true
    case RLoadW(_, _, r) => r == s.rpos
    case RClosed(_, w) => w == s.rpos
    case RLoadIndex(_, _) => s.rpos < s.wpos
    case RLoadByte(_, _, r) => r == s.rpos < s.wpos
    case RLoadPos(_, _, b) => s.rpos < s.wpos && b == At(s.stored, s.rpos)
    case RStorePos(_, _, b, r) => r == s.rpos < s.wpos && b == At(s.stored, s.rpos)
  }

  predicate WriterOk(s: State) {
    match s.wr
    case WIdle => true
    case WLoadW(d) => d != [] && !s.gone
    case WLoadR(d, w) => d != [] && w == s.wpos && !s.gone
    case WClosed(d) => d != [] && !s.gone
    case WLoadIndex(d) => d != [] && s.wpos < s.rpos + PIPEBUFSIZ && !s.gone
    case WStoreByte(d, w) => d != [] && w == s.wpos < s.rpos + PIPEBUFSIZ && !s.gone
    case WLoadPos(d) => d != [] && s.wpos < s.rpos + PIPEBUFSIZ && At(s.buf, s.wpos % PIPEBUFSIZ) == d[0] && !s.gone
    case WStorePos(d, w) =>
      d != [] && w == s.wpos < s.rpos + PIPEBUFSIZ && At(s.buf, s.wpos % PIPEBUFSIZ) == d[0] && !s.gone
  }

  /** What was returned is what was stored, as far as the reader has come; at most a
      bufferful is outstanding, and every outstanding byte is in its slot. */
  ghost predicate Inv(s: State) {
    && |s.buf| == PIPEBUFSIZ && |s.stored| == s.wpos && s.rpos <= s.wpos <= s.rpos + PIPEBUFSIZ
    && s.returned == s.stored[..s.rpos]
    && (forall k: nat :: SlotOk(s, k))
    && ReaderOk(s) && WriterOk(s) && (s.deaf ==> s.rd.RIdle?)
  }

  /** Positions less than a bufferful apart use different slots. */
  lemma SlotsDiffer(k: nat, w: nat)
    requires k < w < k + PIPEBUFSIZ
    ensures k % PIPEBUFSIZ != w % PIPEBUFSIZ
  {
  }

  lemma ReaderInv(s: State)
    requires Inv(s)
    ensures Inv(NextReader(s))
  {
    var t := NextReader(s);
    forall k: nat ensures SlotOk(t, k) { assert SlotOk(s, k); }
    assert SlotOk(s, s.rpos);
    if s.rd.RStorePos? { TookByte(s); }
  }

  lemma TookByte(s: State)
    requires s.rd.RStorePos? && ReaderOk(s) && s.wpos == |s.stored| && s.returned == s.stored[..s.rpos]
    ensures NextReader(s).returned == s.stored[..s.rpos + 1]
  {
  }

  /** The new byte goes where no unread byte is. */
  lemma StoreByteSlots(s: State, k: nat)
    requires Inv(s) && s.wr.WStoreByte?
    ensures SlotOk(NextWriter(s), k)
  {
    assert SlotOk(s, k);
    if s.rpos <= k < s.wpos { SlotsDiffer(k, s.wpos); }
  }

  lemma StoreByteInv(s: State)
    requires Inv(s) && s.wr.WStoreByte?
    ensures Inv(NextWriter(s))
  {
    forall k: nat ensures SlotOk(NextWriter(s), k) { StoreByteSlots(s, k); }
  }

  lemma StorePosInv(s: State)
    requires Inv(s) && s.wr.WStorePos?
    ensures Inv(NextWriter(s))
  {
    var t := NextWriter(s);
    forall k: nat ensures SlotOk(t, k) { assert SlotOk(s, k); }
    assert t.returned == t.stored[..t.rpos];
    assert At(t.stored, s.rpos) == At(s.stored, s.rpos) || s.rpos == s.wpos;
  }

  lemma WriterInv(s: State)
    requires Inv(s)
    ensures Inv(NextWriter(s))
  {
    if s.wr.WStoreByte? {
      StoreByteInv(s);
    } else if s.wr.WStorePos? {
      StorePosInv(s);
    } else {
      forall k: nat ensures SlotOk(NextWriter(s), k) { assert SlotOk(s, k); }
    }
  }

  lemma StepInv(s: State, l: Label)
    requires Inv(s) && Enabled(s, l)
    ensures Inv(Next(s, l))
  {
    match l
    case StepReader => ReaderInv(s);
    case StepWriter => WriterInv(s);
    case _ =>
      var t := Next(s, l);
      forall k: nat ensures SlotOk(t, k) { assert SlotOk(s, k); }
  }

  function After(s: State, run: seq<Label>): State {
    if run == [] then s else Next(After(s, run[..|run| - 1]), run[|run| - 1])
  }

  predicate Possible(s: State, run: seq<Label>) {
    run == [] || (Possible(s, run[..|run| - 1]) && Enabled(After(s, run[..|run| - 1]), run[|run| - 1]))
  }

  /** First in, first out: in every run the bytes returned are a prefix of the bytes stored,
      and no unread slot is ever overwritten. */
  lemma {:induction false} Fifo(buf: Bytes, run: seq<Label>)
    requires |buf| == PIPEBUFSIZ && Possible(Start(buf), run)
    ensures var t := After(Start(buf), run);
      Inv(t) && t.returned <= t.stored && |t.stored| - |t.returned| == t.wpos - t.rpos <= PIPEBUFSIZ
  {
    if run == [] {
      forall k: nat ensures SlotOk(Start(buf), k) { }
    } else {
      Fifo(buf, run[..|run| - 1]);
      StepInv(After(Start(buf), run[..|run| - 1]), run[|run| - 1]);
    }
  }

  // -------------------------------------------------------------- end of file

  /** `devpipe_read` is about to return 0: empty when it looked, closed when it asked. */
  predicate AtEof(s: State) {
    s.rd.RClosed? && s.gone
  }

  /** The reader has just found the pipe empty. */
  predicate FoundEmpty(s: State) {
    s.rd.RClosed? && s.rpos == s.wpos
  }

  /** What the writer has still to store in the call it is in. */
  function Remaining(s: State): nat {
    match s.wr
    case WIdle => 0
    case WLoadW(d) => |d|
    case WLoadR(d, _) => |d|
    case WClosed(d) => |d|
    case WLoadIndex(d) => |d|
    case WStoreByte(d, _) => |d|
    case WLoadPos(d) => |d|
    case WStorePos(d, _) => |d|
  }

  predicate Quiet(run: seq<Label>) {
    forall i :: 0 <= i < |run| ==> !run[i].StepReader?
  }

  /** Without a step of the reader the run leads to end of file, and `returned` falls short of `stored`. */
  ghost predicate LosesBytes(s: State, run: seq<Label>) {
    Possible(s, run) && Quiet(run) && AtEof(After(s, run)) && After(s, run).returned != After(s, run).stored
  }

  /** Nothing is lost if the writer is gone: only the reader can still be destroyed. */
  lemma {:induction false} QuietGone(s: State, run: seq<Label>)
    requires Inv(s) && s.rd.RClosed? && s.gone && Possible(s, run) && Quiet(run)
    ensures After(s, run) == s || After(s, run) == s.(deaf := true, rd := RIdle)
  {
    if run != [] {
      QuietGone(s, run[..|run| - 1]);
    }
  }

  // Otherwise the writer can store a byte and be destroyed.

  lemma {:induction false} Prepend(s: State, l: Label, run: seq<Label>)
    requires Enabled(s, l) && Possible(Next(s, l), run)
    ensures Possible(s, [l] + run) && After(s, [l] + run) == After(Next(s, l), run)
  {
    if run == [] {
      assert ([l] + run)[..0] == [];
    } else {
      Prepend(s, l, run[..|run| - 1]);
      assert ([l] + run)[..|run|] == [l] + run[..|run| - 1];
    }
  }

  function Rank(w: Writer): nat {
    match w
    case WIdle => 0
    case WStorePos(_, _) => 1
    case WLoadPos(_) => 2
    case WStoreByte(_, _) => 3
    case WLoadIndex(_) => 4
    case WLoadR(_, _) => 5
    case WLoadW(_) => 6
    case WClosed(_) => 7
  }

  /** The writer, in a call and with room in the pipe, stores its next byte and is destroyed. */
  lemma {:induction false} StoreAndDie(s: State) returns (run: seq<Label>)
    requires Inv(s) && s.rd.RClosed? && s.wpos < s.rpos + PIPEBUFSIZ && !s.wr.WIdle?
    ensures Possible(s, run) && Quiet(run) && AtEof(After(s, run)) && Inv(After(s, run))
    ensures After(s, run).wpos > s.wpos && After(s, run).returned == s.returned
    decreases Rank(s.wr)
  {
    var t := Next(s, StepWriter);
    WriterInv(s);
    var rest := [KillWriter];
    if s.wr.WStorePos? {
      assert rest[..0] == [];
      StepInv(t, KillWriter);
    } else {
      rest := StoreAndDie(t);
    }
    Prepend(s, StepWriter, rest);
    run := [StepWriter] + rest;
  }

  /** From an empty pipe whose writer is not gone, bytes can be lost. */
  lemma LoseFrom(s: State) returns (run: seq<Label>)
    requires Inv(s) && FoundEmpty(s) && !s.gone
    ensures LosesBytes(s, run)
  {
    if s.wr.WIdle? {
      StepInv(s, Write([7]));
      var rest := StoreAndDie(Next(s, Write([7])));
      Prepend(s, Write([7]), rest);
      run := [Write([7])] + rest;
    } else {
      run := StoreAndDie(s);
    }
    var t := After(s, run);
    assert |t.stored| == t.wpos > s.rpos == |s.returned|;
  }

  /** When the reader finds the pipe empty, whatever happens next, end of file is reported with
      every byte delivered exactly if the writer is gone by then. */
  lemma EofDeliversAllIff(s: State)
    requires Inv(s) && FoundEmpty(s)
    ensures (forall run: seq<Label> :: !LosesBytes(s, run)) <==> s.gone
  {
    if s.gone {
      forall run: seq<Label> ensures !LosesBytes(s, run) {
        if Possible(s, run) && Quiet(run) {
          QuietGone(s, run);
          assert s.stored[..s.wpos] == s.stored;
        }
      }
    } else {
      var run := LoseFrom(s);
    }
  }

  // ------------------------------------------------- if nobody is destroyed

  /** No end is destroyed in this run: a writer leaves only between calls. */
  predicate Peaceful(run: seq<Label>) {
    forall i :: 0 <= i < |run| ==> !run[i].KillWriter? && !run[i].KillReader?
  }

  /** What stays the same while the writer works off `total` bytes and the reader stands still. */
  ghost predicate Busy(s: State, t: State, total: nat) {
    Inv(t) && t.rd == s.rd && t.rpos == s.rpos && !t.gone && !t.deaf && t.wpos + Remaining(t) == s.wpos + total
  }

  lemma BusyStep(s: State, t: State, total: nat, l: Label)
    requires s.rd.RClosed? && s.wpos == s.rpos && total > PIPEBUFSIZ
    requires Busy(s, t, total) && Enabled(t, l) && !l.StepReader? && !l.KillWriter? && !l.KillReader?
    ensures Busy(s, Next(t, l), total)
  {
    StepInv(t, l);
  }

  lemma {:induction false} QuietBusy(s: State, run: seq<Label>)
    requires Inv(s) && FoundEmpty(s) && !s.gone && Remaining(s) > PIPEBUFSIZ
    requires Possible(s, run) && Quiet(run) && Peaceful(run)
    ensures Busy(s, After(s, run), Remaining(s))
  {
    if run != [] {
      QuietBusy(s, run[..|run| - 1]);
      BusyStep(s, After(s, run[..|run| - 1]), Remaining(s), run[|run| - 1]);
    }
  }

  lemma WriterMoves(s: State)
    requires Inv(s) && s.rd.RClosed? && !s.wr.WIdle? && s.wpos + Remaining(s) <= s.rpos + PIPEBUFSIZ
    ensures var t := Next(s, StepWriter);
      && Inv(t) && t.rd == s.rd && t.rpos == s.rpos && !t.gone && t.returned == s.returned
      && t.wpos + Remaining(t) == s.wpos + Remaining(s)
      && (Remaining(t) < Remaining(s) || (Remaining(t) == Remaining(s) && Rank(t.wr) < Rank(s.wr)))
  {
    WriterInv(s);
  }

  /** The writer stores all that is left of its call, and closes. */
  lemma {:induction false} FinishAndClose(s: State) returns (run: seq<Label>)
    requires Inv(s) && s.rd.RClosed? && !s.gone && s.wpos + Remaining(s) <= s.rpos + PIPEBUFSIZ
    ensures Possible(s, run) && Quiet(run) && Peaceful(run) && AtEof(After(s, run)) && Inv(After(s, run))
    ensures After(s, run).wpos == s.wpos + Remaining(s) && After(s, run).returned == s.returned
    decreases Remaining(s), Rank(s.wr)
  {
    if s.wr.WIdle? {
      run := [CloseWriter];
      assert run[..0] == [];
      StepInv(s, CloseWriter);
    } else {
      WriterMoves(s);
      var rest := FinishAndClose(Next(s, StepWriter));
      Prepend(s, StepWriter, rest);
      run := [StepWriter] + rest;
    }
  }

  lemma LosePeacefully(s: State) returns (run: seq<Label>)
    requires Inv(s) && FoundEmpty(s) && !s.gone && Remaining(s) <= PIPEBUFSIZ
    ensures LosesBytes(s, run) && Peaceful(run)
  {
    if s.wr.WIdle? {
      StepInv(s, Write([7]));
      var rest := FinishAndClose(Next(s, Write([7])));
      Prepend(s, Write([7]), rest);
      run := [Write([7])] + rest;
    } else {
      run := FinishAndClose(s);
    }
    var t := After(s, run);
    assert |t.stored| == t.wpos > s.rpos == |s.returned|;
  }

  /** Over runs in which nobody is destroyed there is one more safe state: the writer is in a
      call with more bytes left than the pipe holds, which it cannot finish. */
  lemma PeacefulEofIff(s: State)
    requires Inv(s) && FoundEmpty(s)
    ensures (forall run: seq<Label> :: Peaceful(run) ==> !LosesBytes(s, run))
       <==> s.gone || Remaining(s) > PIPEBUFSIZ
  {
    if s.gone {
      EofDeliversAllIff(s);
    } else if Remaining(s) > PIPEBUFSIZ {
      forall run: seq<Label> | Peaceful(run) ensures !LosesBytes(s, run) {
        if Possible(s, run) && Quiet(run) { QuietBusy(s, run); }
      }
    } else {
      var run := LosePeacefully(s);
    }
  }

  /** The code does reach the losing case with nobody destroyed: a read on the fresh pipe finds
      it empty, the writer then writes and closes, and the reader is told end of file. */
  lemma EofCanLoseByte(buf: Bytes) returns (run: seq<Label>)
    requires |buf| == PIPEBUFSIZ
    ensures Possible(Start(buf), run) && Peaceful(run)
    ensures var t := After(Start(buf), run); AtEof(t) && t.returned == [] && t.stored != []
  {
    var s0 := Start(buf);
    Fifo(buf, []);
    var s1 := Next(s0, Read(1));
    StepInv(s0, Read(1));
    var s2 := Next(s1, StepReader);
    StepInv(s1, StepReader);
    var s3 := Next(s2, StepReader);
    StepInv(s2, StepReader);
    var rest := LosePeacefully(s3);
    Prepend(s2, StepReader, rest);
    Prepend(s1, StepReader, [StepReader] + rest);
    Prepend(s0, Read(1), [StepReader] + ([StepReader] + rest));
    run := [Read(1)] + ([StepReader] + ([StepReader] + rest));
    QuietReturned(s3, rest);
  }

  lemma {:induction false} QuietReturned(s: State, run: seq<Label>)
    requires s.rd.RClosed? && Possible(s, run) && Quiet(run) && Peaceful(run)
    ensures After(s, run).rd == s.rd && After(s, run).returned == s.returned
  {
    if run != [] { QuietReturned(s, run[..|run| - 1]); }
  }
}
