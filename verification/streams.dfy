/**
 The reference meaning of a byte stream: what a decoder makes of it when it is handed
 the whole stream at once.  No buffers, no chunks, no calls.
 */
module Streams {
  import opened Wire
  import opened Results
  import opened DecoderSpec

  type Positive = x: int | x > 0 witness 1

  /** The longest undecoded item that is waited for. */
  datatype Limit = Unlimited | AtMost(max: Positive)

  /** What becomes of a stream that opens with READY (or ACCEPT): refuse it, stop to answer, or read on. */
  datatype Policy = Refuse | Negotiate | Pass

  datatype Env = Env(accepts: Accepts, limit: Limit, policy: Policy)

  datatype End =
    | Waiting(decoder: Decoder, pending: Bytes)
    | Answering(decoder: Decoder, pending: Bytes)
    | Ended
    | Failed

  datatype Run = Run(messages: seq<Bytes>, end: End)

  datatype Step = Halt(end: End) | Go(messages: seq<Bytes>, decoder: Decoder, rest: Bytes)

  function Window(limit: Limit, s: Bytes): (w: Bytes)
    ensures |w| <= |s| && (s != [] ==> w != []) && w == s[..|w|]
  {
    if limit.AtMost? && |s| > limit.max then s[..limit.max] else s
  }

  predicate Full(limit: Limit, s: Bytes) {
    limit.AtMost? && |s| >= limit.max
  }

  /** One item off the stream, or the reason there is none. */
  function Next(env: Env, d: Decoder, s: Bytes): (r: Step)
    requires s != []
    ensures r.Go? ==> |r.rest| < |s|
  {
    var o := Decode(env.accepts, d, Window(env.limit, s));
    match o.result
    case Again => Go([], o.decoder, s[o.size..])
    case HaveDnstap => Go([o.decoder.dnstap], o.decoder, s[o.size..])
    case NeedMore => Halt(if Full(env.limit, s) then Failed else Waiting(d, s))
    case EndOfData => Halt(Ended)
    case Bidirectional =>
      if env.policy.Pass? then Go([], o.decoder, s[o.size..])
      else if env.policy.Negotiate? && o.decoder.readySupport then Halt(Answering(o.decoder, s[o.size..]))
      else Halt(Failed)
    case _ => Halt(Failed)
  }

  function RunFrom(env: Env, d: Decoder, s: Bytes): Run
    decreases |s|
  {
    if s == [] then Run([], Waiting(d, []))
    else
      match Next(env, d, s)
      case Halt(end) => Run([], end)
      case Go(messages, d', rest) => Before(messages, RunFrom(env, d', rest))
  }

  function Before(messages: seq<Bytes>, r: Run): Run {
    Run(messages + r.messages, r.end)
  }

  /** More bytes arrive after a run. */
  function Resume(env: Env, r: Run, more: Bytes): Run {
    match r.end
    case Waiting(d, pending) => Before(r.messages, RunFrom(env, d, pending + more))
    case Answering(d, pending) => Run(r.messages, Answering(d, pending + more))
    case _ => r
  }

  lemma NextExtends(env: Env, d: Decoder, s: Bytes, x: Bytes)
    requires s != []
    ensures match Next(env, d, s)
      case Halt(Waiting(_, _)) => true
      case Halt(Answering(d', pending)) => Next(env, d, s + x) == Halt(Answering(d', pending + x))
      case Halt(end) => Next(env, d, s + x) == Halt(end)
      case Go(messages, d', rest) => Next(env, d, s + x) == Go(messages, d', rest + x)
  {
    var w, w' := Window(env.limit, s), Window(env.limit, s + x);
    var o := Decode(env.accepts, d, w);
    if Full(env.limit, s) {
      assert w' == w;
    } else if o.result != NeedMore {
      assert w == s;
      assert w' == s + w'[|s|..];
      DecodeExtends(env.accepts, d, s, w'[|s|..]);
    }
    assert (s + x)[o.size..] == s[o.size..] + x;
  }

  /**
   Reading a stream in two parts is reading it whole: whatever the split, well formed
   or not, inside an item or between two.
   */
  lemma {:induction false} RunSplits(env: Env, d: Decoder, s: Bytes, more: Bytes)
    ensures RunFrom(env, d, s + more) == Resume(env, RunFrom(env, d, s), more)
    decreases |s|
  {
    if s == [] {
      assert s + more == more == [] + more;
    } else {
      NextExtends(env, d, s, more);
      match Next(env, d, s)
      case Halt(Waiting(_, _)) =>
      case Halt(_) =>
      case Go(messages, d', rest) =>
        RunSplits(env, d', rest, more);
        BeforeResume(env, messages, RunFrom(env, d', rest), more);
    }
  }

  lemma BeforeResume(env: Env, messages: seq<Bytes>, r: Run, more: Bytes)
    ensures Before(messages, Resume(env, r, more)) == Resume(env, Before(messages, r), more)
  {
    hide RunFrom;
    if r.end.Waiting? {
      var q := RunFrom(env, r.end.decoder, r.end.pending + more);
      assert messages + (r.messages + q.messages) == (messages + r.messages) + q.messages;
    }
  }

  lemma BeforeNothing(r: Run)
    ensures Before([], r) == r
  {
    assert [] + r.messages == r.messages;
  }
}
