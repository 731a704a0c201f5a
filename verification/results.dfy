/** The result codes of every call, and the one content type this library speaks. */
module Results {
  import opened Wire

  datatype Result = Ok | Error | Again | NeedMore | HaveDnstap | EndOfData | Bidirectional

  /** How often `x` was answered. */
  function Count(x: Result, answers: seq<Result>): nat {
    if answers == [] then 0
    else
      var last := |answers| - 1;
      Count(x, answers[..last]) + if answers[last] == x then 1 else 0
  }

  /** The last answer was `endofdata`. */
  predicate SaidEnd(answers: seq<Result>) {
    answers != [] && answers[|answers| - 1] == EndOfData
  }

  /** No answer but the last was. */
  predicate SaidEndOnce(answers: seq<Result>) {
    forall i :: 0 <= i < |answers| - 1 ==> answers[i] != EndOfData
  }

  lemma OneMore(answers: seq<Result>, a: Result)
    ensures forall x :: Count(x, answers + [a]) == Count(x, answers) + if x == a then 1 else 0
    ensures SaidEnd(answers + [a]) <==> a == EndOfData
    ensures SaidEndOnce(answers) && !SaidEnd(answers) ==> SaidEndOnce(answers + [a])
  {
    assert (answers + [a])[..|answers|] == answers;
  }

  /** "protobuf:dnstap.Dnstap" */
  const CONTENT_TYPE: Bytes :=
    [112, 114, 111, 116, 111, 98, 117, 102, 58, 100, 110, 115, 116, 97, 112, 46,
     68, 110, 115, 116, 97, 112]

  /** What C's `strncmp(a, b, n)` being zero means, from position `i` on; `a` ends in NUL. */
  predicate StrncmpZero(a: Bytes, b: Bytes, i: nat, n: nat)
    requires 0 < |a| && a[|a| - 1] == 0 && i < |a|
    requires i <= n <= |b|
    decreases n - i
  {
    i == n || (a[i] == b[i] && (a[i] == 0 || StrncmpZero(a, b, i + 1, n)))
  }

  /** The content-type test made on a field: compare with the field's own length. */
  predicate Matches(field: Bytes) {
    StrncmpZero(CONTENT_TYPE + [0], field, 0, |field|)
  }

  lemma {:induction false} StrncmpMeaning(a: Bytes, b: Bytes, i: nat)
    requires forall k :: 0 <= k < |a| ==> a[k] != 0
    requires i <= |a| && i <= |b|
    requires a[..i] == b[..i]
    ensures StrncmpZero(a + [0], b, i, |b|) <==> b <= a || a + [0] <= b
    decreases |b| - i
  {
    if i == |b| {
      assert b == b[..i];
    } else if i == |a| {
      assert a == a[..i];
      assert (a + [0])[i] == 0;
      if b[i] == 0 {
        assert b[..i + 1] == b[..i] + [b[i]];
      }
    } else if a[i] == b[i] {
      assert (a + [0])[i] == a[i];
      assert b[..i + 1] == b[..i] + [b[i]];
      assert a[..i + 1] == a[..i] + [a[i]];
      StrncmpMeaning(a, b, i + 1);
    } else {
      assert (a + [0])[i] == a[i];
    }
  }

  /**
   The test takes more than the content type itself: exactly the prefixes of the content
   type, the empty one included, and everything that begins with it and a NUL.
   */
  lemma MatchesMeaning(field: Bytes)
    ensures Matches(field) <==> field <= CONTENT_TYPE || CONTENT_TYPE + [0] <= field
  {
    StrncmpMeaning(CONTENT_TYPE, field, 0);
  }
}
