/**
 The language of the decoder: exactly which byte streams take it to its final state.
 */
module Language {
  import opened Wire
  import opened Results
  import opened DecoderSpec
  import opened Streams
  import opened Sessions
  import FS = FrameStreams

  /** The three shapes of a session, as one side receives it. */
  datatype Session =
    | OneWay(contentType: Bytes, messages: seq<Bytes>)
    | Opened(readyTypes: seq<Bytes>, contentType: Bytes, messages: seq<Bytes>)
    | Answer(acceptTypes: seq<Bytes>)

  function Body(contentType: Bytes, messages: seq<Bytes>): Bytes {
    FS.ControlBytes(FS.START, [contentType]) + (FS.FramesBytes(messages) + FS.ControlBytes(FS.STOP, []))
  }

  function SessionBytes(s: Session): Bytes {
    match s
    case OneWay(contentType, messages) => Body(contentType, messages)
    case Opened(readyTypes, contentType, messages) =>
      FS.ControlBytes(FS.READY, readyTypes) + Body(contentType, messages)
    case Answer(acceptTypes) => FS.ControlBytes(FS.ACCEPT, acceptTypes) + FS.ControlBytes(FS.FINISH, [])
  }

  predicate WellFormedBody(accepts: Accepts, contentType: Bytes, messages: seq<Bytes>) {
    && Writable([contentType]) && Matches(contentType)
    && Encodable(messages)
    && forall m :: m in messages ==> accepts(m)
  }

  /** READY and ACCEPT offer at least one type; START has one, and it matches. */
  predicate InLanguage(accepts: Accepts, s: Session) {
    match s
    case OneWay(contentType, messages) => WellFormedBody(accepts, contentType, messages)
    case Opened(readyTypes, contentType, messages) =>
      readyTypes != [] && Writable(readyTypes) && WellFormedBody(accepts, contentType, messages)
    case Answer(acceptTypes) => acceptTypes != [] && Writable(acceptTypes)
  }

  function Messages(s: Session): seq<Bytes> {
    if s.Answer? then [] else s.messages
  }

  /** Reading without a limit, and past READY and ACCEPT. */
  function Whole(accepts: Accepts): Env {
    Env(accepts, Unlimited, Pass)
  }

  /** What the bytes held by a decoder come to, which is nothing more when it has ended. */
  function Remaining(env: Env, d: Decoder, data: Bytes): Run {
    if d.state.Done? then Run([], Ended) else RunFrom(env, d, data)
  }

  // ---- every session is read ----

  lemma BodyRun(accepts: Accepts, d: Decoder, contentType: Bytes, messages: seq<Bytes>, rest: Bytes)
    requires (d.state.ReadingControl? || d.state.ReadingStart?) && d.reader.phase.InControl?
    requires WellFormedBody(accepts, contentType, messages)
    ensures RunFrom(Whole(accepts), d, Body(contentType, messages) + rest) == Run(messages, Ended)
  {
    hide RunFrom, FS.ControlBytes, FS.FramesBytes, Matches;
    var env := Whole(accepts);
    var tail := FS.ControlBytes(FS.STOP, []) + rest;
    var frames := FS.FramesBytes(messages);
    assert Body(contentType, messages) + rest == FS.ControlBytes(FS.START, [contentType]) + (frames + tail);
    StartRun(env, d, contentType, frames + tail);
    FramesRun(env, Started(d), messages, tail);
    EndRun(env, Started(d).(dnstap := LastOf(messages, d.dnstap)), FS.STOP, rest);
    assert messages + [] == messages;
  }

  lemma SessionRun(accepts: Accepts, s: Session, rest: Bytes)
    requires InLanguage(accepts, s)
    ensures RunFrom(Whole(accepts), Fresh, SessionBytes(s) + rest) == Run(Messages(s), Ended)
  {
    hide RunFrom, FS.ControlBytes, Body, WellFormedBody;
    var env := Whole(accepts);
    match s
    case OneWay(contentType, messages) =>
      BodyRun(accepts, Fresh, contentType, messages, rest);
    case Opened(readyTypes, contentType, messages) =>
      var body := Body(contentType, messages) + rest;
      assert SessionBytes(s) + rest == FS.ControlBytes(FS.READY, readyTypes) + body;
      ControlRun(env, Fresh, FS.READY, readyTypes, body);
      BodyRun(accepts, Negotiated(Fresh, FS.READY, AnyMatch(readyTypes)), contentType, messages, rest);
    case Answer(acceptTypes) =>
      var end := FS.ControlBytes(FS.FINISH, []) + rest;
      assert SessionBytes(s) + rest == FS.ControlBytes(FS.ACCEPT, acceptTypes) + end;
      ControlRun(env, Fresh, FS.ACCEPT, acceptTypes, end);
      EndRun(env, Negotiated(Fresh, FS.ACCEPT, AnyMatch(acceptTypes)), FS.FINISH, rest);
  }

  // ---- nothing else is ----

  /** A step of a run that reaches the end: the item read, and what is still to be read. */
  lemma EndingStep(accepts: Accepts, d: Decoder, s: Bytes)
    returns (item: FS.Item, next: FS.FrameReader, o: Decoded, rest: Bytes)
    requires RunFrom(Whole(accepts), d, s).end.Ended?
    ensures !d.state.Done? && s == FS.ItemBytes(item, next.left) + rest && |rest| < |s|
    ensures o == Accept(accepts, d, item, |s| - |rest|, next) && o.result != Error
    ensures item.Field? <==> d.reader.phase.InField?
    ensures item.Field? ==>
      && 8 + |item.data| + next.left == d.reader.left
      && next == FS.FrameReader(FS.PhaseAfter(d.reader.kind, next.left), d.reader.kind, next.left)
    ensures item.Control? ==>
      && next.left + 4 < 0x1_0000_0000
      && next == FS.FrameReader(FS.PhaseAfter(item.kind, next.left), item.kind, next.left)
    ensures item.Frame? ==> d.reader.phase.InFrames? && 0 < |item.payload| < 0x1_0000_0000 && next == d.reader
    ensures RunFrom(Whole(accepts), d, s) == After(Whole(accepts), o, rest)
  {
    hide FS.Read, FS.ItemBytes, Matches, Before, After, FS.PhaseAfter;
    o := Decode(accepts, d, s);
    rest := s[o.size..];
    item, next := FS.Read(d.reader, s).item, FS.Read(d.reader, s).next;
    FS.ReadInverts(d.reader, s);
    assert s == s[..o.size] + s[o.size..];
    assert Window(Unlimited, s) == s;
    FrontTaken(Whole(accepts), d, s, o, rest);
  }

  lemma {:induction false} FramesParse(accepts: Accepts, d: Decoder, s: Bytes)
    returns (messages: seq<Bytes>, rest: Bytes)
    requires d.state.ReadingFrames?
    requires RunFrom(Whole(accepts), d, s).end.Ended?
    ensures d.reader.phase != FS.InField
    ensures s == FS.FramesBytes(messages) + (FS.ControlBytes(FS.STOP, []) + rest)
    ensures Encodable(messages) && forall m :: m in messages ==> accepts(m)
    ensures RunFrom(Whole(accepts), d, s) == Run(messages, Ended)
    decreases |s|
  {
    hide RunFrom, FS.FrameBytes, FS.Header;
    var item, next, o, more := EndingStep(accepts, d, s);
    if o.result == EndOfData {
      messages, rest := [], more;
      assert FS.ControlBytes(FS.STOP, []) == FS.Header(FS.STOP, 0);
    } else {
      var ms;
      ms, rest := FramesParse(accepts, o.decoder, more);
      messages := [item.payload] + ms;
      assert messages[1..] == ms;
    }
  }

  predicate InFields(d: Decoder, kind: nat) {
    d.reader == FS.FrameReader(FS.PhaseAfter(kind, d.reader.left), kind, d.reader.left)
    && d.reader.left + 4 < 0x1_0000_0000
  }

  /** START's header has been read: one matching field, the frames, STOP. */
  lemma StartParse(accepts: Accepts, d: Decoder, s: Bytes)
    returns (contentType: Bytes, messages: seq<Bytes>, rest: Bytes)
    requires d.state.CheckingStart? && InFields(d, FS.START)
    requires RunFrom(Whole(accepts), d, s).end.Ended?
    ensures FS.Header(FS.START, d.reader.left) + s == Body(contentType, messages) + rest
    ensures WellFormedBody(accepts, contentType, messages)
    ensures RunFrom(Whole(accepts), d, s) == Run(messages, Ended)
  {
    hide RunFrom, FS.FieldBytes, FS.Header, FS.FramesBytes, Matches;
    var item, next, o, more := EndingStep(accepts, d, s);
    contentType := item.data;
    messages, rest := FramesParse(accepts, o.decoder, more);
    assert [contentType][1..] == [];
    var field := FS.FieldBytes(FS.FIELD_CONTENT_TYPE, contentType);
    assert FS.FieldsBytes([contentType]) == field + FS.FieldsBytes([]) == field;
    var frames, stop := FS.FramesBytes(messages), FS.ControlBytes(FS.STOP, []);
    var header := FS.Header(FS.START, d.reader.left);
    assert header + (field + (frames + (stop + rest))) == (header + field) + (frames + stop) + rest;
  }

  /** READY's or ACCEPT's header has been read: its fields, as many as it announced. */
  lemma {:induction false} FieldsParse(accepts: Accepts, d: Decoder, kind: nat, s: Bytes)
    returns (fields: seq<Bytes>, rest: Bytes)
    requires (kind == FS.READY && d.state.CheckingReady?) || (kind == FS.ACCEPT && d.state.CheckingAccept?)
    requires InFields(d, kind)
    requires RunFrom(Whole(accepts), d, s).end.Ended?
    ensures fields != [] && s == FS.FieldsBytes(fields) + rest && |FS.FieldsBytes(fields)| == d.reader.left
    ensures RunFrom(Whole(accepts), d, s)
         == RunFrom(Whole(accepts), Negotiated(d, kind, AnyMatch(fields)), rest)
    decreases |s|
  {
    hide RunFrom, FS.FieldBytes, Matches;
    var item, next, o, more := EndingStep(accepts, d, s);
    var f := item.data;
    if next.left == 0 {
      fields, rest := [f], more;
      assert fields[1..] == [];
      assert FS.FieldsBytes(fields) == FS.FieldBytes(FS.FIELD_CONTENT_TYPE, f) + FS.FieldsBytes([]);
      assert AnyMatch(fields) <==> Matches(f);
    } else {
      var fs;
      fs, rest := FieldsParse(accepts, o.decoder, kind, more);
      fields := [f] + fs;
      assert fields[1..] == fs;
      assert AnyMatch(fields) <==> Matches(f) || AnyMatch(fs);
    }
  }

  lemma FinishParse(accepts: Accepts, d: Decoder, s: Bytes) returns (rest: Bytes)
    requires d.state.CheckingFinish?
    requires RunFrom(Whole(accepts), d, s).end.Ended?
    ensures s == FS.ControlBytes(FS.FINISH, []) + rest
    ensures RunFrom(Whole(accepts), d, s) == Run([], Ended)
  {
    hide RunFrom, FS.Header;
    var item, next, o, more := EndingStep(accepts, d, s);
    rest := more;
    assert FS.ControlBytes(FS.FINISH, []) == FS.Header(FS.FINISH, 0);
  }

  lemma SessionParse(accepts: Accepts, s: Bytes) returns (session: Session, rest: Bytes)
    requires RunFrom(Whole(accepts), Fresh, s).end.Ended?
    ensures InLanguage(accepts, session)
    ensures s == SessionBytes(session) + rest
  {
    hide RunFrom, FS.Header, Body, WellFormedBody, FS.FieldsBytes;
    var item, next, o, more := EndingStep(accepts, Fresh, s);
    var header := FS.Header(item.kind, next.left);
    if item.kind == FS.START {
      var contentType, messages;
      contentType, messages, rest := StartParse(accepts, o.decoder, more);
      session := OneWay(contentType, messages);
    } else {
      var fields, later := FieldsParse(accepts, o.decoder, item.kind, more);
      assert s == FS.ControlBytes(item.kind, fields) + later by {
        assert header + (FS.FieldsBytes(fields) + later) == header + FS.FieldsBytes(fields) + later;
      }
      var d := Negotiated(o.decoder, item.kind, AnyMatch(fields));
      if item.kind == FS.READY {
        var item2, next2, o2, more2 := EndingStep(accepts, d, later);
        var contentType, messages;
        contentType, messages, rest := StartParse(accepts, o2.decoder, more2);
        session := Opened(fields, contentType, messages);
        var ready := FS.ControlBytes(item.kind, fields);
        assert ready + (Body(contentType, messages) + rest) == ready + Body(contentType, messages) + rest;
      } else {
        rest := FinishParse(accepts, d, later);
        session := Answer(fields);
        var accept := FS.ControlBytes(item.kind, fields);
        assert accept + (FS.ControlBytes(FS.FINISH, []) + rest) == accept + FS.ControlBytes(FS.FINISH, []) + rest;
      }
    }
  }

  /**
   The decoder reaches its end exactly on the streams that begin with a session of the
   language, and what it has delivered then is that session's messages.
   */
  lemma DecoderLanguage(accepts: Accepts, s: Bytes, messages: seq<Bytes>)
    ensures RunFrom(Whole(accepts), Fresh, s) == Run(messages, Ended)
      <==> exists session: Session, rest: Bytes ::
             InLanguage(accepts, session) && s == SessionBytes(session) + rest && Messages(session) == messages
  {
    hide RunFrom, InLanguage, SessionBytes;
    if RunFrom(Whole(accepts), Fresh, s) == Run(messages, Ended) {
      var session, rest := SessionParse(accepts, s);
      SessionRun(accepts, session, rest);
    }
    forall session: Session, rest: Bytes
      | InLanguage(accepts, session) && s == SessionBytes(session) + rest && Messages(session) == messages
      ensures RunFrom(Whole(accepts), Fresh, s) == Run(messages, Ended)
    {
      SessionRun(accepts, session, rest);
    }
  }
}
