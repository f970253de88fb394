/** The message formats of the Frontend/Backend Protocol: a type byte, an Int32 that
    counts itself and the body, then the body. Requests are parsed out of a packet,
    replies are written into the reply stream, and both use the same frame. */
module Messages {

  newtype byte = x: int | 0 <= x < 256

  /** An Int32 length word counts its own four bytes and must stay positive. */
  const MAX_BODY: int := 0x7fff_ffff - 4

  type Body = b: seq<byte> | |b| <= MAX_BODY witness []

  datatype Msg = Msg(kind: byte, body: Body)

  // Frontend message types, by the ASCII codes the switch of pg_proto.c uses.
  const QUERY: byte := 81          // Q
  const PARSE: byte := 80          // P
  const BIND: byte := 66           // B
  const EXECUTE: byte := 69        // E
  const FUNCTION_CALL: byte := 70  // F
  const CLOSE: byte := 67          // C
  const DESCRIBE: byte := 68       // D
  const FLUSH: byte := 72          // H
  const SYNC: byte := 83           // S
  const TERMINATE: byte := 88      // X
  const COPY_DATA: byte := 100     // d
  const COPY_DONE: byte := 99      // c
  const COPY_FAIL: byte := 102     // f
  const PASSWORD: byte := 112      // p

  // Backend message types the loop itself writes.
  const READY_FOR_QUERY: byte := 90   // Z
  const AUTHENTICATION: byte := 82    // R
  const BACKEND_KEY_DATA: byte := 75  // K
  const ERROR_RESPONSE: byte := 69    // E

  /** What SocketBackend hands to the loop: a whole message, or EOF when the buffered
      bytes run out behind a type byte or the length word is impossible. */
  datatype Input = Message(m: Msg) | Eof(kind: byte)

  function Int32(n: nat): (s: seq<byte>)
    requires n <= 0xffff_ffff
    ensures |s| == 4
  {
    var high, low := n / 0x1_0000, n % 0x1_0000;
    [(high / 0x100) as byte, (high % 0x100) as byte, (low / 0x100) as byte, (low % 0x100) as byte]
  }

  function ReadInt32(s: seq<byte>): (n: nat)
    requires |s| == 4
    ensures n <= 0xffff_ffff
  {
    (s[0] as int * 0x100 + s[1] as int) * 0x1_0000 + (s[2] as int * 0x100 + s[3] as int)
  }

  function Encode(m: Msg): (s: seq<byte>)
    ensures |s| == 5 + |m.body| && s[0] == m.kind
  {
    [m.kind] + Int32(4 + |m.body|) + m.body
  }

  function EncodeAll(ms: seq<Msg>): seq<byte> {
    if ms == [] then [] else Encode(ms[0]) + EncodeAll(ms[1..])
  }

  predicate LengthOk(n: int) {
    4 <= n <= 0x7fff_ffff
  }

  /** What pq_getmessage finds behind a type byte. */
  datatype Frame = Whole(body: Body) | Torn

  /** The length word and the body. A frame cut short consumes everything (pq_recvbuf
      empties the buffer at EOF); a bad length word leaves what follows it. */
  function NextFrame(s: seq<byte>): (r: (Frame, seq<byte>))
    ensures |r.1| <= |s| && r.1 == s[|s| - |r.1|..]
    ensures r.0.Whole? ==> |r.1| + 4 + |r.0.body| == |s|
  {
    if |s| < 4 then (Torn, [])
    else
      var n := ReadInt32(s[..4]);
      if !LengthOk(n) then (Torn, s[4..])
      else if |s| < n then (Torn, [])
      else (Whole(s[4..n]), s[n..])
  }

  /** One message off the front of the unread bytes. */
  function NextInput(s: seq<byte>): (r: (Input, seq<byte>))
    requires s != []
    ensures |r.1| < |s| && r.1 == s[|s| - |r.1|..]
    ensures r.0.Message? ==> |r.1| + 5 + |r.0.m.body| == |s|
  {
    match NextFrame(s[1..])
    case (Torn, rest) => (Eof(s[0]), rest)
    case (Whole(body), rest) => (Message(Msg(s[0], body)), rest)
  }

  /** All the inputs the loop can take out of a packet; EOF is always the last one. */
  function ParseAll(s: seq<byte>): seq<Input>
    decreases |s|
  {
    if s == [] then []
    else
      var (i, rest) := NextInput(s);
      if i.Eof? then [i] else [i] + ParseAll(rest)
  }

  function Inputs(ms: seq<Msg>): (r: seq<Input>)
    ensures |r| == |ms|
  {
    seq(|ms|, i requires 0 <= i < |ms| => Message(ms[i]))
  }

  lemma Int32RoundTrip(n: nat)
    requires n <= 0xffff_ffff
    ensures ReadInt32(Int32(n)) == n
  {
  }

  lemma ReadInt32RoundTrip(s: seq<byte>)
    requires |s| == 4
    ensures Int32(ReadInt32(s)) == s
  {
    var n := ReadInt32(s);
    assert n / 0x1_0000 == s[0] as int * 0x100 + s[1] as int;
    assert n % 0x1_0000 == s[2] as int * 0x100 + s[3] as int;
  }

  /** The two reads of pq_getmessage: the length word, then the body. */
  lemma TornFrame(word: seq<byte>, rest: seq<byte>)
    requires |word| == 4
    ensures !LengthOk(ReadInt32(word)) ==> NextFrame(word + rest) == (Torn, rest)
    ensures LengthOk(ReadInt32(word)) && |rest| < ReadInt32(word) - 4 ==> NextFrame(word + rest) == (Torn, [])
  {
    assert (word + rest)[..4] == word && (word + rest)[4..] == rest;
  }

  lemma WholeFrame(word: seq<byte>, body: Body, rest: seq<byte>)
    requires |word| == 4 && LengthOk(ReadInt32(word)) && |body| == ReadInt32(word) - 4
    ensures NextFrame(word + (body + rest)) == (Whole(body), rest)
  {
    var all := word + (body + rest);
    assert all[..4] == word && all[4..4 + |body|] == body && all[4 + |body|..] == rest;
  }

  function InputOf(kind: byte, frame: Frame): Input {
    if frame.Torn? then Eof(kind) else Message(Msg(kind, frame.body))
  }

  lemma NextInputAfterKind(kind: byte, s: seq<byte>)
    ensures NextInput([kind] + s) == (InputOf(kind, NextFrame(s).0), NextFrame(s).1)
  {
    assert ([kind] + s)[1..] == s;
  }

  /** A frame at the front of any byte string is read back whole, whatever follows it. */
  lemma NextInputOfEncode(m: Msg, rest: seq<byte>)
    ensures NextInput(Encode(m) + rest) == (Message(m), rest)
  {
    var n := 4 + |m.body|;
    var s := (Encode(m) + rest)[1..];
    assert s[..4] == Int32(n);
    Int32RoundTrip(n);
    assert s[4..n] == m.body;
    assert s[n..] == rest;
  }

  /** The frame byte by byte: the length word is big-endian, counts itself and the body, and
      is impossible below 4 or as a negative Int32. */
  lemma NextInputInBytes(s: seq<byte>)
    requires s != []
    ensures |s| < 5 ==> NextInput(s) == (Eof(s[0]), [])
    ensures |s| >= 5 ==>
      var n := ((s[1] as int * 256 + s[2] as int) * 256 + s[3] as int) * 256 + s[4] as int;
      NextInput(s) ==
      if n < 4 || n >= 0x8000_0000 then (Eof(s[0]), s[5..])
      else if |s| < n + 1 then (Eof(s[0]), [])
      else (Message(Msg(s[0], s[5..n + 1])), s[n + 1..])
  {
    if |s| >= 5 {
      var t := s[1..];
      assert t[..4] == [s[1], s[2], s[3], s[4]];
      var n := ReadInt32(t[..4]);
      assert t[4..] == s[5..];
      if 4 <= n < |s| {
        assert t[4..n] == s[5..n + 1] && t[n..] == s[n + 1..];
      }
    }
  }

  lemma EncodeInBytes(m: Msg)
    ensures var s := Encode(m);
            && s[0] == m.kind && s[5..] == m.body
            && ((s[1] as int * 256 + s[2] as int) * 256 + s[3] as int) * 256 + s[4] as int == 4 + |m.body|
  {
    Int32RoundTrip(4 + |m.body|);
    assert Encode(m)[1..5] == Int32(4 + |m.body|);
  }

  lemma AppendedFrames(ms: seq<Msg>, rest: seq<byte>)
    requires ms != []
    ensures EncodeAll(ms) + rest == Encode(ms[0]) + (EncodeAll(ms[1..]) + rest)
  {
    var first, others := Encode(ms[0]), EncodeAll(ms[1..]);
    assert first + others + rest == first + (others + rest);
  }

  lemma AppendedInputs(ms: seq<Msg>, inputs: seq<Input>)
    requires ms != []
    ensures Inputs(ms) + inputs == [Message(ms[0])] + (Inputs(ms[1..]) + inputs)
  {
    var first, others := [Message(ms[0])], Inputs(ms[1..]);
    assert Inputs(ms) == first + others;
    assert first + others + inputs == first + (others + inputs);
  }

  /** Frames in front of other bytes. */
  lemma {:induction false} ParseBehindFrames(ms: seq<Msg>, rest: seq<byte>)
    ensures ParseAll(EncodeAll(ms) + rest) == Inputs(ms) + ParseAll(rest)
  {
    if ms == [] {
      assert EncodeAll(ms) + rest == rest && Inputs(ms) + ParseAll(rest) == ParseAll(rest);
    } else {
      AppendedFrames(ms, rest);
      ParseBehindFrame(ms[0], EncodeAll(ms[1..]) + rest);
      ParseBehindFrames(ms[1..], rest);
      AppendedInputs(ms, ParseAll(rest));
    }
  }

  lemma ParseBehindFrame(m: Msg, rest: seq<byte>)
    ensures ParseAll(Encode(m) + rest) == [Message(m)] + ParseAll(rest)
  {
    var all := Encode(m) + rest;
    assert all != [];
    NextInputOfEncode(m, rest);
  }

  lemma ParseOfEncodeAll(ms: seq<Msg>)
    ensures ParseAll(EncodeAll(ms)) == Inputs(ms)
  {
    ParseBehindFrames(ms, []);
    assert EncodeAll(ms) + [] == EncodeAll(ms);
    assert Inputs(ms) + ParseAll([]) == Inputs(ms);
  }

  /** The reply bytes determine the reply messages: framing is uniquely decodable. */
  lemma EncodeAllInjective(a: seq<Msg>, b: seq<Msg>)
    ensures EncodeAll(a) == EncodeAll(b) <==> a == b
  {
    ParseOfEncodeAll(a);
    ParseOfEncodeAll(b);
    if EncodeAll(a) == EncodeAll(b) {
      assert Inputs(a) == Inputs(b);
      forall i | 0 <= i < |a| ensures a[i] == b[i] {
        assert Inputs(a)[i] == Inputs(b)[i];
      }
    }
  }

  lemma {:induction false} EncodeAllAppend(a: seq<Msg>, b: seq<Msg>)
    ensures EncodeAll(a + b) == EncodeAll(a) + EncodeAll(b)
  {
    if a == [] {
      assert a + b == b;
    } else {
      assert (a + b)[1..] == a[1..] + b;
      EncodeAllAppend(a[1..], b);
    }
  }

  lemma EncodeNext(ms: seq<Msg>, k: nat)
    requires k < |ms|
    ensures EncodeAll(ms[..k + 1]) == EncodeAll(ms[..k]) + Encode(ms[k])
  {
    assert ms[..k + 1] == ms[..k] + [ms[k]];
    EncodeAllAppend(ms[..k], [ms[k]]);
  }

  function TakenMessages(inputs: seq<Input>): seq<Msg> {
    if inputs == [] || inputs[0].Eof? then [] else [inputs[0].m] + TakenMessages(inputs[1..])
  }

  /** A message taken off the front is exactly the bytes that were consumed. */
  lemma NextInputIsFrame(s: seq<byte>)
    requires s != [] && NextInput(s).0.Message?
    ensures Encode(NextInput(s).0.m) + NextInput(s).1 == s
  {
    var t := s[1..];
    ReadInt32RoundTrip(t[..4]);
    var n := ReadInt32(t[..4]);
    assert s == [s[0]] + t[..4] + t[4..n] + t[n..];
  }

  /** A packet that never ends in EOF is exactly the frames parsed out of it: no byte is
      skipped, repeated or shared between two messages. */
  lemma {:induction false} EncodeOfParseAll(s: seq<byte>)
    requires forall i :: i in ParseAll(s) ==> i.Message?
    ensures EncodeAll(TakenMessages(ParseAll(s))) == s
    decreases |s|
  {
    if s != [] {
      assert ParseAll(s)[0] in ParseAll(s);
      var (i, rest) := NextInput(s);
      assert ParseAll(s)[1..] == ParseAll(rest);
      assert forall x :: x in ParseAll(s)[1..] ==> x in ParseAll(s);
      EncodeOfParseAll(rest);
      NextInputIsFrame(s);
    }
  }

  lemma {:induction false} ParseAllNonEmpty(s: seq<byte>)
    ensures ParseAll(s) == [] <==> s == []
    ensures forall k :: 0 <= k < |ParseAll(s)| - 1 ==> ParseAll(s)[k].Message?
    decreases |s|
  {
    if s != [] && NextInput(s).0.Message? {
      ParseAllNonEmpty(NextInput(s).1);
    }
  }
}
