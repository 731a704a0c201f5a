/**
 What the decoder makes of the items its peers write: every control frame with any list
 of content-type fields, every data frame, and the items the encoder produces.
 */
module Sessions {
  import opened Wire
  import opened Results
  import opened DecoderSpec
  import opened Streams
  import FS = FrameStreams

  predicate Fits(limit: Limit, n: nat) {
    limit.AtMost? ==> n <= limit.max
  }

  // ---- one item ----

  /** What an answer of the decoder means for the run, `rest` being what follows the item. */
  function After(env: Env, o: Decoded, rest: Bytes): Run {
    match o.result
    case Again => RunFrom(env, o.decoder, rest)
    case HaveDnstap => Before([o.decoder.dnstap], RunFrom(env, o.decoder, rest))
    case EndOfData => Run([], Ended)
    case Bidirectional =>
      if env.policy.Pass? then RunFrom(env, o.decoder, rest)
      else if env.policy.Negotiate? && o.decoder.readySupport then Run([], Answering(o.decoder, rest))
      else Run([], Failed)
    case _ => Run([], Failed)
  }

  /** The front item of a stream is acted on, unless it is longer than the limit. */
  lemma FrontItem(env: Env, d: Decoder, item: Bytes, rest: Bytes)
    requires item != [] && !d.state.Done?
    requires FS.Read(d.reader, item).Got? && FS.Read(d.reader, item).size == |item|
    ensures RunFrom(env, d, item + rest) ==
      if Fits(env.limit, |item|) then After(env, Decode(env.accepts, d, item), rest) else Run([], Failed)
  {
    var s := item + rest;
    var w := Window(env.limit, s);
    var o := Decode(env.accepts, d, item);
    if Fits(env.limit, |item|) {
      assert w == item + w[|item|..];
      DecodeExtends(env.accepts, d, item, w[|item|..]);
      assert s[|item|..] == rest;
      FrontTaken(env, d, s, o, rest);
    } else {
      assert w == item[..env.limit.max];
      PartNeedsMore(d.reader, item, env.limit.max);
    }
  }

  lemma FrontTaken(env: Env, d: Decoder, s: Bytes, o: Decoded, rest: Bytes)
    requires s != [] && o == Decode(env.accepts, d, Window(env.limit, s))
    requires o.result != NeedMore && (o.result != Error ==> s[o.size..] == rest)
    ensures RunFrom(env, d, s) == After(env, o, rest)
  {
    BeforeNothing(RunFrom(env, o.decoder, rest));
  }

  /** Part of an item is never taken for a whole one. */
  lemma PartNeedsMore(t: FS.FrameReader, item: Bytes, n: nat)
    requires FS.Read(t, item).Got? && FS.Read(t, item).size == |item| && n < |item|
    ensures FS.Read(t, item[..n]).NeedMore?
  {
    assert item[..n] + item[n..] == item;
    if !FS.Read(t, item[..n]).NeedMore? {
      FS.ReadExtends(t, item[..n], item[n..]);
    }
  }

  // ---- control frames ----

  predicate Writable(fields: seq<Bytes>) {
    |FS.FieldsBytes(fields)| + 4 < 0x1_0000_0000
  }

  predicate EachFits(limit: Limit, fields: seq<Bytes>) {
    forall f :: f in fields ==> Fits(limit, 8 + |f|)
  }

  predicate FieldsFit(limit: Limit, fields: seq<Bytes>) {
    Fits(limit, 12) && EachFits(limit, fields)
  }

  predicate AnyMatch(fields: seq<Bytes>) {
    exists f :: f in fields && Matches(f)
  }

  lemma HeaderRun(env: Env, d: Decoder, kind: nat, length: nat, rest: Bytes)
    requires d.reader.phase.InControl? && !d.state.Done? && length + 4 < 0x1_0000_0000
    requires kind == FS.READY || kind == FS.ACCEPT || kind == FS.START
    ensures RunFrom(env, d, FS.Header(kind, length) + rest) ==
      if Fits(env.limit, 12) then
        var next := FS.FrameReader(FS.PhaseAfter(kind, length), kind, length);
        After(env, Accept(env.accepts, d, FS.Control(kind), 12, next), rest)
      else Run([], Failed)
  {
    hide RunFrom, FS.Header, FS.Read, After;
    var item := FS.Header(kind, length);
    FS.ReadHeader(d.reader, kind, length, []);
    assert item + [] == item;
    FrontItem(env, d, item, rest);
  }

  lemma FieldRun(env: Env, d: Decoder, data: Bytes, rest: Bytes)
    requires d.reader.phase.InField? && !d.state.Done?
    requires 8 + |data| <= d.reader.left < 0x1_0000_0000
    ensures var item := FS.FieldBytes(FS.FIELD_CONTENT_TYPE, data);
      RunFrom(env, d, item + rest) ==
      if Fits(env.limit, 8 + |data|) then
        var left := d.reader.left - 8 - |data|;
        var next := FS.FrameReader(FS.PhaseAfter(d.reader.kind, left), d.reader.kind, left);
        After(env, Accept(env.accepts, d, FS.Field(FS.FIELD_CONTENT_TYPE, data), 8 + |data|, next), rest)
      else Run([], Failed)
  {
    hide RunFrom, FS.FieldBytes, Matches, FS.Read, After;
    var item := FS.FieldBytes(FS.FIELD_CONTENT_TYPE, data);
    FS.ReadFieldBack(d.reader, FS.FIELD_CONTENT_TYPE, data, []);
    assert item + [] == item;
    FrontItem(env, d, item, rest);
  }

  /** The decoder once READY or ACCEPT, whose fields match or not, has been read. */
  function Negotiated(d: Decoder, kind: nat, matched: bool): Decoder {
    var d' := d.(reader := FS.FrameReader(FS.InControl, kind, 0));
    if kind == FS.READY then d'.(state := ReadingStart, readySupport := d.readySupport || matched)
    else d'.(state := CheckingFinish, acceptSupport := d.acceptSupport || matched)
  }

  /** The remaining fields of a READY or an ACCEPT, of any number. */
  lemma {:induction false} FieldsRun(env: Env, d: Decoder, fields: seq<Bytes>, rest: Bytes)
    requires fields != []
    requires d.reader.phase.InField? && d.reader.left == |FS.FieldsBytes(fields)| < 0x1_0000_0000
    requires (d.state.CheckingReady? && d.reader.kind == FS.READY)
          || (d.state.CheckingAccept? && d.reader.kind == FS.ACCEPT)
    ensures var d' := Negotiated(d, d.reader.kind, AnyMatch(fields));
      RunFrom(env, d, FS.FieldsBytes(fields) + rest) ==
      if EachFits(env.limit, fields) then After(env, Decoded(Bidirectional, d', 1), rest) else Run([], Failed)
    decreases |fields|
  {
    hide RunFrom, FS.FieldBytes, Matches, FS.Read, Next;
    var f, fs := fields[0], fields[1..];
    var more := FS.FieldsBytes(fs);
    assert FS.FieldsBytes(fields) + rest == FS.FieldBytes(FS.FIELD_CONTENT_TYPE, f) + (more + rest);
    FieldRun(env, d, f, more + rest);
    assert AnyMatch(fields) <==> Matches(f) || AnyMatch(fs);
    assert EachFits(env.limit, fields) <==> Fits(env.limit, 8 + |f|) && EachFits(env.limit, fs);
    if fs == [] {
      assert more + rest == rest;
    } else if Fits(env.limit, 8 + |f|) {
      var left := d.reader.left - 8 - |f|;
      var next := FS.FrameReader(FS.PhaseAfter(d.reader.kind, left), d.reader.kind, left);
      var d' := Accept(env.accepts, d, FS.Field(FS.FIELD_CONTENT_TYPE, f), 8 + |f|, next).decoder;
      FieldsRun(env, d', fs, rest);
    }
  }

  /** READY from a peer, or ACCEPT: any non-empty list of content types is read through, if each fits. */
  lemma ControlRun(env: Env, d: Decoder, kind: nat, fields: seq<Bytes>, rest: Bytes)
    requires kind == FS.READY || kind == FS.ACCEPT
    requires d.state.ReadingControl? && d.reader.phase.InControl?
    requires fields != [] && Writable(fields)
    ensures var d' := Negotiated(d, kind, AnyMatch(fields));
      RunFrom(env, d, FS.ControlBytes(kind, fields) + rest) ==
      if FieldsFit(env.limit, fields) then After(env, Decoded(Bidirectional, d', 1), rest) else Run([], Failed)
  {
    hide RunFrom, FS.Header, AnyMatch, EachFits;
    var body := FS.FieldsBytes(fields);
    assert FS.ControlBytes(kind, fields) + rest == FS.Header(kind, |body|) + (body + rest);
    HeaderRun(env, d, kind, |body|, body + rest);
    var d' := d.(reader := FS.FrameReader(FS.InField, kind, |body|),
                 state := if kind == FS.READY then CheckingReady else CheckingAccept);
    FieldsRun(env, d', fields, rest);
  }

  /** The decoder once START has been read. */
  function Started(d: Decoder): Decoder {
    d.(state := ReadingFrames, reader := FS.FrameReader(FS.InFrames, FS.START, 0))
  }

  /** START has to fit, and to carry a content type that matches. */
  lemma StartRun(env: Env, d: Decoder, contentType: Bytes, rest: Bytes)
    requires (d.state.ReadingControl? || d.state.ReadingStart?) && d.reader.phase.InControl?
    requires Writable([contentType])
    ensures RunFrom(env, d, FS.ControlBytes(FS.START, [contentType]) + rest) ==
      if FieldsFit(env.limit, [contentType]) && Matches(contentType) then RunFrom(env, Started(d), rest)
      else Run([], Failed)
  {
    hide RunFrom, FS.FieldBytes, FS.Header, Matches, FS.Read;
    var body := FS.FieldsBytes([contentType]);
    assert [contentType][1..] == [];
    assert body == FS.FieldBytes(FS.FIELD_CONTENT_TYPE, contentType) + FS.FieldsBytes([]);
    assert FS.ControlBytes(FS.START, [contentType]) + rest == FS.Header(FS.START, |body|) + (body + rest);
    HeaderRun(env, d, FS.START, |body|, body + rest);
    var d' := d.(reader := FS.FrameReader(FS.InField, FS.START, |body|), state := CheckingStart);
    assert body + rest == FS.FieldBytes(FS.FIELD_CONTENT_TYPE, contentType) + rest;
    FieldRun(env, d', contentType, rest);
    assert contentType in [contentType];
  }

  // ---- data frames ----

  predicate Deliverable(env: Env, m: Bytes) {
    env.accepts(m) && Fits(env.limit, 4 + |m|)
  }

  /** How many messages come through before one that cannot. */
  function Through(env: Env, messages: seq<Bytes>): (n: nat)
    ensures n <= |messages|
    ensures forall k :: 0 <= k < n ==> Deliverable(env, messages[k])
    ensures n < |messages| ==> !Deliverable(env, messages[n])
  {
    if messages == [] || !Deliverable(env, messages[0]) then 0
    else
      var n := Through(env, messages[1..]);
      assert forall k :: 1 <= k < n + 1 ==> messages[k] == messages[1..][k - 1];
      1 + n
  }

  predicate Encodable(messages: seq<Bytes>) {
    forall m :: m in messages ==> 0 < |m| < 0x1_0000_0000
  }

  function LastOf(messages: seq<Bytes>, default: Bytes): Bytes {
    if messages == [] then default else messages[|messages| - 1]
  }

  lemma FrameRun(env: Env, d: Decoder, m: Bytes, rest: Bytes)
    requires d.state.ReadingFrames? && d.reader.phase.InFrames? && 0 < |m| < 0x1_0000_0000
    ensures RunFrom(env, d, FS.FrameBytes(m) + rest) ==
      if Deliverable(env, m) then Before([m], RunFrom(env, d.(dnstap := m), rest)) else Run([], Failed)
  {
    hide RunFrom, U32, FS.Read, Matches;
    var item := FS.FrameBytes(m);
    FS.ReadFrameBack(d.reader, m, []);
    assert item + [] == item;
    FrontItem(env, d, item, rest);
  }

  /** Frames are delivered in order, up to the first that is too long or does not unpack. */
  lemma {:induction false} FramesRun(env: Env, d: Decoder, messages: seq<Bytes>, rest: Bytes)
    requires d.state.ReadingFrames? && d.reader.phase.InFrames? && Encodable(messages)
    ensures var n := Through(env, messages);
      RunFrom(env, d, FS.FramesBytes(messages) + rest) ==
      if n == |messages| then Before(messages, RunFrom(env, d.(dnstap := LastOf(messages, d.dnstap)), rest))
      else Run(messages[..n], Failed)
    decreases |messages|
  {
    hide RunFrom, FS.FrameBytes, Deliverable;
    if messages == [] {
      assert FS.FramesBytes(messages) + rest == rest;
      BeforeNothing(RunFrom(env, d, rest));
    } else {
      var m, ms := messages[0], messages[1..];
      var more := FS.FramesBytes(ms) + rest;
      assert FS.FramesBytes(messages) + rest == FS.FrameBytes(m) + more;
      FrameRun(env, d, m, more);
      FramesRun(env, d.(dnstap := m), ms, rest);
      FirstMessage(m, ms, Through(env, ms), RunFrom(env, d.(dnstap := LastOf(ms, m)), rest));
      assert messages == [m] + ms;
    }
  }

  /** A first message in front of what the others come to. */
  lemma FirstMessage(m: Bytes, ms: seq<Bytes>, n: nat, r: Run)
    requires n <= |ms|
    ensures Before([m], Before(ms, r)) == Before([m] + ms, r)
    ensures Before([m], Run(ms[..n], Failed)) == Run(([m] + ms)[..n + 1], Failed)
  {
    assert [m] + (ms + r.messages) == [m] + ms + r.messages;
    assert [m] + ms[..n] == ([m] + ms)[..n + 1];
  }

  lemma EndRun(env: Env, d: Decoder, kind: nat, rest: Bytes)
    requires (kind == FS.STOP && d.state.ReadingFrames? && d.reader.phase.InFrames?)
          || (kind == FS.FINISH && d.state.CheckingFinish? && d.reader.phase.InControl?)
    ensures RunFrom(env, d, FS.ControlBytes(kind, []) + rest)
         == if Fits(env.limit, 12) then Run([], Ended) else Run([], Failed)
  {
    hide RunFrom, U32, FS.Read, Matches;
    var item := FS.Header(kind, 0);
    FS.ReadEnd(d.reader, kind, []);
    assert item + [] == item && FS.ControlBytes(kind, []) == item;
    FrontItem(env, d, item, rest);
  }
}
