/**
 Where the code does not do what it is for, and exactly when it does.
 */
module Findings {
  import opened Wire
  import opened Results
  import opened BufferSpec
  import opened WriterSpec
  import opened WriterRuns
  import opened WriterSends
  import opened WriterAnswers
  import opened Streams
  import WT = WriterTrace
  import FS = FrameStreams
  import D = DecoderSpec
  import E = EncoderSpec
  import S = Sessions
  import H = Handshake

  // ---- a FINISH that arrives in parts ----

  /** Waiting for FINISH, with nothing held of it. */
  predicate AwaitsFinish(w: Writer) {
    && Good(w) && w.state.ReadingFinish?
    && w.decoder.state.CheckingFinish? && w.decoder.reader.phase.InControl?
    && w.input.data == [] && 12 <= w.input.size
  }

  /** Waiting for FINISH in the states that only know ACCEPT. */
  predicate DeadEnd(w: Writer) {
    Good(w) && (w.state.ReadingAccept? || w.state.DecodingAccept?) && w.decoder.state.CheckingFinish?
  }

  /** The writer is done after one of these calls. */
  predicate EverDone(accepts: D.Accepts, w: Writer, ios: seq<Transport>)
    requires Good(w)
    decreases |ios|
  {
    ios != [] &&
    var o := Write(accepts, w, ios[0]);
    o.writer.state.Done? || (o.result != Error && Good(o.writer) && EverDone(accepts, o.writer, ios[1..]))
  }

  lemma DeadEndStays(accepts: D.Accepts, w: Writer, io: Transport)
    requires DeadEnd(w)
    ensures var o := Write(accepts, w, io);
      !o.writer.state.Done? && (o.result != Error ==> DeadEnd(o.writer))
  {
    hide D.Decode, InStep;
    var n := ReadCount(w, |io.canRead|);
    if !(ReadsInput(w.state) && n == 0) {
      var data := w.input.data + io.canRead[..n];
      D.DecodeFollows(accepts, w.decoder, data);
      ReceiveGood(accepts, w, io.canRead[..n]);
    }
  }

  lemma {:induction false} NeverDone(accepts: D.Accepts, w: Writer, ios: seq<Transport>)
    requires DeadEnd(w)
    ensures !EverDone(accepts, w, ios)
    decreases |ios|
  {
    hide Write, InStep, Valid;
    if ios != [] {
      DeadEndStays(accepts, w, ios[0]);
      var o := Write(accepts, w, ios[0]);
      if o.result != Error {
        NeverDone(accepts, o.writer, ios[1..]);
      }
    }
  }

  lemma FinishPart(t: FS.FrameReader, k: nat)
    requires t.phase.InControl? && 0 < k <= 12
    ensures |E.FinishBytes| == 12
    ensures FS.Read(t, E.FinishBytes[..k]) ==
      if k == 12 then FS.Got(FS.Finished, 12, FS.FrameReader(FS.AtEnd, FS.FINISH, 0)) else FS.NeedMore
  {
    hide FS.Read;
    E.ItemSizes();
    FS.ReadEnd(t, FS.FINISH, []);
    assert FS.Header(FS.FINISH, 0) + [] == FS.Header(FS.FINISH, 0) == E.FinishBytes;
    assert E.FinishBytes[..12] == E.FinishBytes;
    if k < 12 {
      S.PartNeedsMore(t, E.FinishBytes, k);
    }
  }

  /**
   A bidirectional writer ends its session if and only if the read that begins FINISH brings
   all 12 bytes of it.  Given fewer, it goes to the state that waits for ACCEPT, and
   no sequence of calls and no input takes it to its end from there.
   */
  lemma FinishNeedsOneRead(accepts: D.Accepts, w: Writer, k: nat, io: Transport)
    requires AwaitsFinish(w) && 0 < k <= 12 && io.canRead == E.FinishBytes[..k]
    ensures |E.FinishBytes| == 12
    ensures var o := Write(accepts, w, io);
      && (o.result == EndOfData && o.writer.state.Done? <==> k == 12)
      && (k < 12 ==> Good(o.writer) && forall later :: !EverDone(accepts, o.writer, later))
  {
    E.ItemSizes();
    hide FS.Read, E.FinishBytes;
    assert io.canRead[..k] == io.canRead && w.input.data + io.canRead == io.canRead;
    FinishPart(w.decoder.reader, k);
    var o := Write(accepts, w, io);
    ReceiveGood(accepts, w, io.canRead);
    if k < 12 {
      forall later
        ensures !EverDone(accepts, o.writer, later)
      {
        NeverDone(accepts, o.writer, later);
      }
    }
  }

  // ---- a READY that leaves in parts ----

  /** Whatever is done next: with nothing received, no more than READY is sent. */
  ghost predicate HoldsBack(accepts: D.Accepts, t: WT.Trace)
    requires WT.Kept(accepts, t) && t.writer.bidirectional
  {
    forall later: seq<WT.Call> :: (forall c :: c in later ==> !c.CallPop?) ==>
      var t' := WT.PerformAll(accepts, t, later);
      t'.received == [] ==> |t'.sent| <= |E.ReadyBytes|
  }

  /** The trace after READY was encoded and `n` bytes or all of it have left. */
  function AfterReady(w: Writer, n: nat): WT.Trace
    requires WT.Fresh(w) && w.bidirectional
  {
    WT.Record(WT.Begin(w), SendReady(w, n).(taken := 0), [])
  }

  lemma {:induction false} LongStaysLong(accepts: D.Accepts, t: WT.Trace, later: seq<WT.Call>)
    requires WT.Kept(accepts, t) && t.writer.bidirectional && !t.shortReady
    requires !t.writer.encoder.state.ControlReady?
    requires forall c :: c in later ==> !c.CallPop?
    ensures !WT.PerformAll(accepts, t, later).shortReady
    decreases |later|
  {
    hide Write, WT.Kept, InStep, Valid;
    if later != [] {
      assert later[0] in later;
      WT.CallKept(accepts, t, later[0]);
      NotReadyAgain(accepts, t, later[0]);
      LongStaysLong(accepts, WT.Perform(accepts, t, later[0]), later[1..]);
    }
  }

  lemma NotReadyAgain(accepts: D.Accepts, t: WT.Trace, c: WT.Call)
    requires WT.Kept(accepts, t) && !c.CallPop? && !t.writer.encoder.state.ControlReady? && !t.shortReady
    ensures var t' := WT.Perform(accepts, t, c);
      !t'.shortReady && !t'.writer.encoder.state.ControlReady?
  {
    hide Write, Valid, WT.Heard, Stream;
    if c.CallWrite? {
      WT.WriteMode(accepts, t.writer, c.io);
    }
  }

  /** Nothing was received, and yet START has been sent: that needs a short READY. */
  lemma NothingReceived(accepts: D.Accepts, t: WT.Trace)
    requires WT.Kept(accepts, t) && t.writer.bidirectional && !t.shortReady && t.received == []
    ensures |t.sent| <= |E.ReadyBytes|
  {
    hide Stream, E.ReadyBytes, InStep, Valid;
    var w := t.writer;
    H.NeverBack(accepts, w.decoder, w.input.data);
    H.PastReady(w.encoder.state, t.messages);
    assert !Accepted(w.decoder);
  }

  lemma ReadySent(accepts: D.Accepts, w: Writer, n: nat)
    requires WT.Fresh(w) && w.bidirectional && 0 < n && 42 <= w.output.max
    ensures var t := AfterReady(w, n);
      && WT.Kept(accepts, t) && t.writer.bidirectional && t.status.Running? && t.received == []
      && t.writer.encoder.state.ControlStart? && t.writer.output.max == w.output.max
      && t.shortReady == (n < 42)
      && (n < 42 ==> t.writer.state.Writing?)
  {
    hide Stream, InStep, EncodeInto;
    E.ItemSizes();
    WT.BeginKept(accepts, w);
    var t := WT.Begin(w);
    ReadyEncodes(w, n);
    SendReadyGood(w, n, [], []);
    WT.ReadySentKept(accepts, t, n);
  }

  lemma ReadyEncodes(w: Writer, n: nat)
    requires Good(w) && w.state.EncodingReady? && 0 < n && 42 <= w.output.max
    ensures SendReady(w, n).result != Error && SendReady(w, n).writer.output.max == w.output.max
    ensures Ready(w, [], [])
  {
    hide E.ReadyBytes;
    E.ItemSizes();
    EncodeIntoExact(w.encoder, w.output);
  }

  /** A write that drains what is pending, and one that then sends the first byte of START. */
  const DrainAll := WT.CallWrite(Transport(42, 1, []))
  const OneByte := WT.CallWrite(Transport(1, 1, []))

  lemma RestLeaves(accepts: D.Accepts, t: WT.Trace)
    requires WT.Kept(accepts, t) && t.writer.bidirectional && t.status.Running?
    requires t.writer.state.Writing? && t.writer.encoder.state.ControlStart? && t.received == []
    ensures var t' := WT.Perform(accepts, t, DrainAll);
      && WT.Kept(accepts, t') && t'.writer.bidirectional && t'.status.Running? && t'.received == []
      && t'.writer.state.Encoding? && t'.writer.encoder.state.ControlStart?
      && t'.writer.output.max == t.writer.output.max
  {
    hide Stream, WT.Heard, E.ReadyBytes, InStep;
    WT.CallKept(accepts, t, DrainAll);
    PendingReady(t.writer, t.sent, t.messages);
  }

  lemma PendingReady(w: Writer, sent: Bytes, messages: seq<Bytes>)
    requires Ready(w, sent, messages) && w.encoder.state.ControlStart? && w.bidirectional
    ensures |w.output.data| <= 42
  {
    E.ItemSizes();
    assert |sent + w.output.data| == 42;
  }

  lemma StartLeaves(accepts: D.Accepts, t: WT.Trace)
    requires WT.Kept(accepts, t) && t.writer.bidirectional && t.status.Running? && t.received == []
    requires t.writer.state.Encoding? && t.writer.encoder.state.ControlStart? && 42 <= t.writer.output.max
    ensures var t' := WT.Perform(accepts, t, OneByte);
      t'.received == [] && |t'.sent| == 43
  {
    hide Stream, WT.Heard, E.ReadyBytes, E.StartBytes, InStep;
    E.ItemSizes();
    EncodeIntoExact(t.writer.encoder, t.writer.output);
    AllOfReady(t);
  }

  lemma AllOfReady(t: WT.Trace)
    requires Ready(t.writer, t.sent, t.messages) && t.writer.encoder.state.ControlStart? && t.writer.bidirectional
    requires t.writer.output.data == []
    ensures |t.sent| == 42
  {
    E.ItemSizes();
    assert t.sent + [] == t.sent;
  }

  /**
   The wait for ACCEPT is kept, whatever the calls that follow, if and only if READY
   leaves whole in the call that encodes it.  If its write was short, two more writes
   put START on the wire with nothing ever received.
   */
  lemma ReadyNeedsOneWrite(accepts: D.Accepts, w: Writer, n: nat)
    requires WT.Fresh(w) && w.bidirectional && 0 < n && 42 <= w.output.max
    ensures |E.ReadyBytes| == 42
    ensures WT.Kept(accepts, AfterReady(w, n)) && AfterReady(w, n).writer.bidirectional
    ensures HoldsBack(accepts, AfterReady(w, n)) <==> 42 <= n
  {
    hide AfterReady, WT.Kept, Write;
    E.ItemSizes();
    ReadySent(accepts, w, n);
    var t := AfterReady(w, n);
    if 42 <= n {
      forall later: seq<WT.Call> | forall c :: c in later ==> !c.CallPop?
        ensures var t' := WT.PerformAll(accepts, t, later);
          t'.received == [] ==> |t'.sent| <= |E.ReadyBytes|
      {
        LongStaysLong(accepts, t, later);
        WT.RunKept(accepts, t, later);
        var t' := WT.PerformAll(accepts, t, later);
        if t'.received == [] {
          NothingReceived(accepts, t');
        }
      }
    } else {
      RestLeaves(accepts, t);
      var t1 := WT.Perform(accepts, t, DrainAll);
      StartLeaves(accepts, t1);
      TwoCalls(accepts, t, DrainAll, OneByte);
    }
  }

  lemma TwoCalls(accepts: D.Accepts, t: WT.Trace, a: WT.Call, b: WT.Call)
    requires WT.Kept(accepts, t) && !a.CallPop? && !b.CallPop?
    ensures WT.Kept(accepts, WT.Perform(accepts, t, a))
    ensures WT.PerformAll(accepts, t, [a, b]) == WT.Perform(accepts, WT.Perform(accepts, t, a), b)
  {
    hide WT.Kept, WT.Perform;
    WT.CallKept(accepts, t, a);
    var t1 := WT.Perform(accepts, t, a);
    WT.CallKept(accepts, t1, b);
    var t2 := WT.Perform(accepts, t1, b);
    assert [a, b][1..] == [b] && [b][1..] == [];
    assert WT.PerformAll(accepts, t2, []) == t2;
    assert WT.PerformAll(accepts, t1, [b]) == t2;
  }

  // ---- stop with bytes pending, in pop ----

  predicate Ending(w: Writer) {
    Good(w) && !w.bidirectional && (w.state.Stopping? || w.state.EncodingStop? || w.state.WritingStop? || w.state.Done?)
  }

  /** What the caller of pop is still to be given. */
  function Owed(w: Writer): Bytes {
    w.output.data + if w.encoder.state.ControlStop? then E.StopBytes else []
  }

  lemma StopEncodes(w: Writer)
    requires Ending(w) && w.state.EncodingStop?
    ensures var (result, w') := Encode(w, WritingStop);
      result != Error ==> result == EndOfData && Ending(w') && w'.state.WritingStop? && Owed(w') == Owed(w)
  {
    hide Stream, EncodeInto, E.StopBytes;
    EncodeIntoExact(w.encoder, w.output);
    ItemNotEmpty(w.encoder);
  }

  lemma StopOwes(w: Writer, n: nat)
    requires Ending(w) && (w.state.EncodingStop? || w.state.WritingStop?)
    ensures var o := SendStop(w, n);
      o.result != Error ==> Ending(o.writer) && o.sent + Owed(o.writer) == Owed(w)
  {
    hide Stream, Encode, Drain, E.StopBytes;
    if w.state.EncodingStop? {
      StopEncodes(w);
    }
    var (result, w') := if w.state.EncodingStop? then Encode(w, WritingStop) else (EndOfData, w);
    if result != Error {
      DrainGood(w', n, Again, WriterState.Done);
    }
  }

  lemma PopOwes(w: Writer, len: Len)
    requires Ending(w)
    ensures var o := Pop(w, len);
      o.result != Error ==>
        && Ending(o.writer)
        && (!Overwrites(w, len) ==> o.sent + Owed(o.writer) == Owed(w))
        && (Overwrites(w, len) ==> |o.sent| + |Owed(o.writer)| < |Owed(w)|)
  {
    hide Stream, SendStop, E.StopBytes;
    if w.state.Stopping? {
      if w.output.data == [] {
        StopOwes(w.(state := EncodingStop), len);
      } else {
        DrainGoodStopping(w, len);
        var o := Drain(w, len, Again, EncodingStop);
        assert o.sent + Owed(o.writer) == Owed(w);
        if !o.writer.state.Stopping? {
          StopOwes(o.writer, len);
        }
      }
    } else if !w.state.Done? {
      StopOwes(w, len);
    }
  }

  /** The caller's loop after a stop: what it hands on, and whether `endofdata` ended it. */
  datatype Popped = Popped(writer: Writer, sent: Bytes, ended: bool)

  /** Pop after pop, until one fails or says that this is the end. */
  function PopAll(w: Writer, lens: seq<Len>): Popped
    requires Ending(w)
    decreases |lens|
  {
    if lens == [] then Popped(w, [], false)
    else
      PopOwes(w, lens[0]);
      var o := Pop(w, lens[0]);
      if o.result == Error then Popped(w, [], false)
      else if o.result == EndOfData then Popped(o.writer, o.sent, true)
      else
        var p := PopAll(o.writer, lens[1..]);
        p.(sent := o.sent + p.sent)
  }

  lemma {:induction false} PopAllOwes(w: Writer, lens: seq<Len>)
    requires Ending(w)
    ensures var p := PopAll(w, lens); var w', sent := p.writer, p.sent;
      && Ending(w')
      && (w.output.data == [] || !w.state.Stopping? ==> sent + Owed(w') == Owed(w))
      && (w.output.data != [] && w.state.Stopping? && !w'.state.Stopping? ==> |sent| + |Owed(w')| < |Owed(w)|)
      && (w'.state.Stopping? ==> w.state.Stopping? && sent + Owed(w') == Owed(w))
    decreases |lens|
  {
    hide Pop, InStep, E.StopBytes;
    if lens != [] {
      PopOwes(w, lens[0]);
      var o := Pop(w, lens[0]);
      PopTells(w, lens[0]);
      if o.result == EndOfData {
        PopStep(w, lens[0]);
      } else if o.result != Error {
        var p := PopAll(o.writer, lens[1..]);
        PopStep(w, lens[0]);
        PopAllOwes(o.writer, lens[1..]);
        assert o.sent + p.sent + Owed(p.writer) == o.sent + (p.sent + Owed(p.writer));
      }
    }
  }

  lemma PopStep(w: Writer, len: Len)
    requires Ending(w) && Pop(w, len).result != Error
    ensures var w' := Pop(w, len).writer;
      && (w'.state.Stopping? <==> w.state.Stopping? && w.output.data != [] && !Overwrites(w, len))
      && (w'.state.Stopping? ==> w'.output.data != [])
  {
    hide Stream, SendStop;
    if w.state.Stopping? {
      if w.output.data == [] {
        SendStopState(w.(state := EncodingStop), len);
      } else {
        DrainGoodStopping(w, len);
        var o := Drain(w, len, Again, EncodingStop);
        if !o.writer.state.Stopping? {
          SendStopState(o.writer, len);
        }
      }
    } else if !w.state.Done? {
      SendStopState(w, len);
    }
  }

  lemma SendStopState(w: Writer, n: nat)
    requires Good(w) && (w.state.EncodingStop? || w.state.WritingStop?)
    ensures !SendStop(w, n).writer.state.Stopping?
  {
    hide EncodeInto;
  }

  /** Each pop after a stop goes through, and leaves less to be handed out. */
  lemma PopMoves(w: Writer, len: Len)
    requires Ending(w) && !w.state.Done? && 12 <= w.output.max
    ensures var o := Pop(w, len);
      && o.result != Error && Ending(o.writer) && o.writer.output.max == w.output.max
      && |Owed(o.writer)| < |Owed(w)|
  {
    hide SendStop, Stream, E.StopBytes, Owed;
    PopOwes(w, len);
    WT.PopMode(w, len);
    if w.state.Stopping? && w.output.data != [] {
      DrainGoodStopping(w, len);
      var o := Drain(w, len, Again, EncodingStop);
      if !o.writer.state.Stopping? {
        StopFails(o.writer, len);
      }
    } else {
      StopFails(if w.state.Stopping? then w.(state := EncodingStop) else w, len);
    }
  }

  lemma StillOwed(w: Writer)
    requires Ending(w) && !w.state.Done?
    ensures Owed(w) != []
  {
    E.ItemSizes();
  }

  /** With enough pops, whatever their sizes, the writer comes to its end and says so. */
  lemma {:induction false} PopsEnd(w: Writer, lens: seq<Len>)
    requires Ending(w) && !w.state.Done? && 12 <= w.output.max && |Owed(w)| <= |lens|
    ensures PopAll(w, lens).ended && PopAll(w, lens).writer.state.Done?
    decreases |lens|
  {
    hide Pop, InStep, Owed;
    StillOwed(w);
    PopMoves(w, lens[0]);
    PopTells(w, lens[0]);
    if Pop(w, lens[0]).result != EndOfData {
      PopsEnd(Pop(w, lens[0]).writer, lens[1..]);
    }
  }

  /**
   After stop, pops of any sizes come to `endofdata`, and have then handed out everything
   pending and STOP if and only if nothing was pending at the stop.  Otherwise bytes
   are missing, and yet the writer ends as if all was well.
   */
  lemma PopAfterStop(w: Writer, lens: seq<Len>)
    requires Ending(w) && w.state.Stopping? && 12 <= w.output.max && |Owed(w)| <= |lens|
    ensures PopAll(w, lens).ended && PopAll(w, lens).writer.state.Done?
    ensures PopAll(w, lens).sent == w.output.data + E.StopBytes <==> w.output.data == []
  {
    hide PopAll, E.StopBytes;
    PopsEnd(w, lens);
    PopAllOwes(w, lens);
    var p := PopAll(w, lens);
    assert p.sent + [] == p.sent;
  }

  /** One byte of START has left. */
  predicate OneByteLeft(w: Writer, w': Writer) {
    && Good(w') && !w'.bidirectional && w'.state.Writing? && w'.encoder.state.Frames?
    && w'.output.data == E.StartBytes[1..] && w'.output.at == 42 && w'.output.max == w.output.max
  }

  lemma StartBegun(w: Writer)
    requires WT.Fresh(w) && !w.bidirectional && 42 <= w.output.max
    ensures |E.StartBytes| == 42 && Ready(w, [], [])
    ensures var o := SendFrames(w, 1);
      && o.result == Again && o.sent == E.StartBytes[..1] && OneByteLeft(w, o.writer)
  {
    hide E.StartBytes;
    E.ItemSizes();
    EncodeIntoExact(w.encoder, w.output);
    SendFramesGood(w, 1, [], []);
    WT.FramesMode(w, 1);
    assert [] + E.StartBytes == E.StartBytes;
  }

  /** The smallest failing run: of START only the first byte comes out, and then STOP. */
  lemma PopLoses(w: Writer)
    requires WT.Fresh(w) && !w.bidirectional && 42 <= w.output.max
    ensures |E.StartBytes| == 42
    ensures var o := Pop(w, 1); var (stopped, w') := WriterSpec.Stop(o.writer);
      && o.sent == E.StartBytes[..1] && stopped == Ok && w'.output.data == E.StartBytes[1..]
      && Ending(w') && PopAll(w', [41]).ended && PopAll(w', [41]).sent == E.StopBytes
  {
    hide E.StartBytes, E.StopBytes;
    StartBegun(w);
    E.ItemSizes();
    var (stopped, w1) := WriterSpec.Stop(Pop(w, 1).writer);
    LastPop(w1);
  }

  lemma LastPop(w: Writer)
    requires Ending(w) && w.state.Stopping? && |w.output.data| == 41 && 42 <= w.output.max
    ensures PopAll(w, [41]).ended && PopAll(w, [41]).sent == E.StopBytes
  {
    hide E.StopBytes;
    E.ItemSizes();
    PopOwes(w, 41);
    DrainGoodStopping(w, 41);
    var w1 := Drain(w, 41, Again, EncodingStop).writer;
    EncodeIntoExact(w1.encoder, w1.output);
    assert [] + E.StopBytes == E.StopBytes && E.StopBytes[..12] == E.StopBytes;
  }

  // ---- resizing a writer's buffer ----

  const OneByteWrite := WT.CallWrite(Transport(1, 1, []))

  /**
   A run in which a resize loses what is pending: START is encoded, one byte of it leaves,
   and the buffer is set to any size from 41 to 82 bytes.  The call succeeds, and of the 41
   bytes pending none is to be found.  What exactly goes wrong is `BufferSpec.ResizeExact`.
   */
  lemma ResizeLoses(accepts: D.Accepts, w: Writer, n: Positive, m: RawBuf, stray: nat -> byte)
    requires WT.Fresh(w) && !w.bidirectional && 42 <= w.output.max && 41 <= n < 83 && n <= w.output.max
    ensures |E.StartBytes| == 42
    ensures var t := WT.RunOf(accepts, w, [OneByteWrite]); var b := t.writer.output;
      && t.status.Running? && t.sent == E.StartBytes[..1] && b.data == E.StartBytes[1..] && b.at == 42
      && WT.RunOf(accepts, w, [OneByteWrite, WT.CallSetBufsize(n)]).status.Displaced?
      && (b.Describes(m) ==> m.SetSize(n, b.max, stray).Some? && m.SetSize(n, b.max, stray).value.Pending() == None)
  {
    hide E.StartBytes, Stream, WT.Heard;
    StartBegun(w);
    WT.BeginKept(accepts, w);
    var t := WT.Begin(w);
    TwoCalls(accepts, t, OneByteWrite, WT.CallSetBufsize(n));
    OneCall(accepts, t, OneByteWrite);
    var t1 := WT.Perform(accepts, t, OneByteWrite);
    assert [] + E.StartBytes[..1] == E.StartBytes[..1];
    if t1.writer.output.Describes(m) {
      ResizeExact(t1.writer.output, m, n, stray);
    }
  }

  lemma OneCall(accepts: D.Accepts, t: WT.Trace, a: WT.Call)
    requires WT.Kept(accepts, t) && !a.CallPop?
    ensures WT.Kept(accepts, WT.Perform(accepts, t, a))
    ensures WT.PerformAll(accepts, t, [a]) == WT.Perform(accepts, t, a)
  {
    hide WT.Kept, WT.Perform;
    WT.CallKept(accepts, t, a);
    assert [a][1..] == [];
    assert WT.PerformAll(accepts, WT.Perform(accepts, t, a), []) == WT.Perform(accepts, t, a);
  }
}
