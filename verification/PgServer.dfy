/** The query loop of services/pgvector_compat.py, _ClientHandler: every message read is answered and
    the answer closed with ReadyForQuery. */
module PgServer {
  import opened Prelude
  import opened PgWire
  import opened PgMessages

  const QUERY: Byte := 81

  /** body.rstrip(b"\0") */
  function StripNuls(bs: Bytes): Bytes {
    if bs != [] && bs[|bs| - 1] == 0 then StripNuls(bs[..|bs| - 1]) else bs
  }

  /** A query sent as a NUL-ended text arrives as that text exactly if it does not itself end in one. */
  lemma {:induction false} QueryArrives(q: Text)
    ensures StripNuls(CString(q)) == q <==> q == [] || q[|q| - 1] != 0
  {
    assert CString(q)[..|q|] == q;
    StripNulsShorter(q);
  }

  /** All NUL bytes at the end go, and nothing else. */
  lemma {:induction false} StripsAll(q: Bytes, n: nat)
    requires q == [] || q[|q| - 1] != 0
    ensures StripNuls(q + seq(n, _ => 0)) == q
  {
    var zeros := seq(n, _ => 0);
    if n == 0 {
      assert q + zeros == q;
    } else {
      var bs := q + zeros;
      assert bs[|bs| - 1] == 0 && bs[..|bs| - 1] == q + seq(n - 1, _ => 0);
      StripsAll(q, n - 1);
    }
  }

  lemma {:induction false} StripNulsShorter(q: Bytes)
    ensures |StripNuls(q)| <= |q| && (q != [] && q[|q| - 1] == 0 ==> |StripNuls(q)| < |q|)
  {
    if q != [] && q[|q| - 1] == 0 {
      StripNulsShorter(q[..|q| - 1]);
    }
  }

  function Ready(): Message {
    Message(READY, [IDLE])
  }

  /** The messages sent in reply: what a query is answered with, or a refusal of the message type. */
  function Reply(answer: Text -> seq<Message>, refusal: Byte -> Text, m: Message): seq<Message> {
    if m.tag == QUERY then answer(StripNuls(m.body)) else [Message(ERROR_RESPONSE, ErrorBody(refusal(m.tag)))]
  }

  function Replies(answer: Text -> seq<Message>, refusal: Byte -> Text, ms: seq<Message>): seq<Message> {
    if ms == [] then [] else Reply(answer, refusal, ms[0]) + [Ready()] + Replies(answer, refusal, ms[1..])
  }

  /** The messages between one ReadyForQuery and the next, and those after the last. */
  function Rounds(ms: seq<Message>): (rounds: seq<seq<Message>>)
    ensures rounds != []
  {
    if ms == [] then [[]]
    else
      var rest := Rounds(ms[1..]);
      if ms[0].tag == READY then [[]] + rest else [[ms[0]] + rest[0]] + rest[1..]
  }

  ghost predicate NeverReady(ms: seq<Message>) {
    forall i :: 0 <= i < |ms| ==> ms[i].tag != READY
  }

  lemma {:induction false} RoundsAfter(ms: seq<Message>, rest: seq<Message>)
    requires NeverReady(ms)
    ensures Rounds(ms + ([Ready()] + rest)) == [ms] + Rounds(rest)
  {
    var all := ms + ([Ready()] + rest);
    if ms == [] {
      assert all[1..] == rest;
    } else {
      RoundsAfter(ms[1..], rest);
      assert all[1..] == ms[1..] + ([Ready()] + rest);
      assert [ms[0]] + ms[1..] == ms;
    }
  }

  lemma {:induction false} RepliesInOrder(answer: Text -> seq<Message>, refusal: Byte -> Text, ms: seq<Message>)
    requires forall q :: NeverReady(answer(q))
    ensures |Rounds(Replies(answer, refusal, ms))| == |ms| + 1
    ensures forall i :: 0 <= i < |ms| ==>
              Rounds(Replies(answer, refusal, ms))[i] == Reply(answer, refusal, ms[i])
    ensures Rounds(Replies(answer, refusal, ms))[|ms|] == []
  {
    if ms == [] {
    } else {
      var first, rest := Reply(answer, refusal, ms[0]), Replies(answer, refusal, ms[1..]);
      RepliesInOrder(answer, refusal, ms[1..]);
      RoundsAfter(first, rest);
      assert first + [Ready()] + rest == first + ([Ready()] + rest);
    }
  }

  /** The client sees its messages answered one by one, in order, each answer closed by one ReadyForQuery: a
      query by what its text without NULs at the end is answered with, anything else by an error. */
  lemma AnsweredInOrder(answer: Text -> seq<Message>, refusal: Byte -> Text, ms: seq<Message>)
    requires forall q :: NeverReady(answer(q))
    ensures |Rounds(Replies(answer, refusal, ms))| == |ms| + 1
    ensures forall i :: 0 <= i < |ms| ==>
              Rounds(Replies(answer, refusal, ms))[i] ==
              if ms[i].tag == 'Q' as int then answer(StripNuls(ms[i].body))
              else [Message('E' as int, ErrorBody(refusal(ms[i].tag)))]
    ensures Rounds(Replies(answer, refusal, ms))[|ms|] == []
  {
    RepliesInOrder(answer, refusal, ms);
  }

  /** The refusals are short enough to be framed. */
  ghost predicate Refusable(refusal: Byte -> Text) {
    forall b :: Framable(Message(ERROR_RESPONSE, ErrorBody(refusal(b))))
  }

  ghost predicate AnswersWell(answer: Text -> seq<Message>, refusal: Byte -> Text) {
    Refusable(refusal) && forall q :: AllSendable(answer(q)) && NeverReady(answer(q))
  }

  lemma {:induction false} RepliesSendable(answer: Text -> seq<Message>, refusal: Byte -> Text, ms: seq<Message>)
    requires AnswersWell(answer, refusal)
    ensures AllSendable(Replies(answer, refusal, ms))
  {
    if ms == [] {
    } else {
      RepliesSendable(answer, refusal, ms[1..]);
      assert AllSendable(Reply(answer, refusal, ms[0]));
    }
  }

  lemma {:induction false} StreamAppend(a: seq<Message>, b: seq<Message>)
    ensures Stream(a + b) == Stream(a) + Stream(b)
  {
    if a == [] {
      assert a + b == b;
    } else {
      assert (a + b)[1..] == a[1..] + b;
      StreamAppend(a[1..], b);
    }
  }

  lemma ReadyBytes()
    ensures Stream([Ready()]) == ReadyForQuery()
  {
    assert Stream([Ready()]) == Framed(Ready()) + [];
  }

  /** One round of the loop, as bytes. */
  lemma RoundBytes(answer: Text -> seq<Message>, refusal: Byte -> Text, m: Message, ms: seq<Message>)
    ensures Stream(Replies(answer, refusal, [m] + ms)) ==
            Stream(Reply(answer, refusal, m)) + ReadyForQuery() + Stream(Replies(answer, refusal, ms))
  {
    var first, rest := Reply(answer, refusal, m), Replies(answer, refusal, ms);
    assert ([m] + ms)[1..] == ms;
    StreamAppend(first + [Ready()], rest);
    StreamAppend(first, [Ready()]);
    ReadyBytes();
  }

  /** What the server says first: two settings, that the client is in, and that it is listening. */
  lemma GreetingReadsBack(name1: Text, value1: Text, name2: Text, value2: Text)
    requires ParameterStatus(name1, value1).Some? && ParameterStatus(name2, value2).Some?
    ensures
      var bytes := ParameterStatus(name1, value1).value + ParameterStatus(name2, value2).value +
                   AuthenticationOk() + ReadyForQuery();
      Split(bytes) == Session([Message(PARAMETER_STATUS, StatusBody(name1, value1)),
                               Message(PARAMETER_STATUS, StatusBody(name2, value2)),
                               Message(AUTHENTICATION, Int32(0)), Ready()], Cut, [])
  {
    var a := Message(PARAMETER_STATUS, StatusBody(name1, value1));
    var b := Message(PARAMETER_STATUS, StatusBody(name2, value2));
    var c, d := Message(AUTHENTICATION, Int32(0)), Ready();
    StreamReadsBack([a] + [b] + [c] + [d]);
    StreamOfFour(a, b, c, d);
    ReadyBytes();
    assert Stream([d]) == Framed(d) + [] == Framed(d);
    assert [a] + [b] + [c] + [d] == [a, b, c, d];
  }

  lemma StreamOfFour(a: Message, b: Message, c: Message, d: Message)
    ensures Stream([a] + [b] + [c] + [d]) == Framed(a) + Framed(b) + Framed(c) + Framed(d)
  {
    StreamSnoc([], a);
    StreamSnoc([a], b);
    StreamSnoc([a] + [b], c);
    StreamSnoc([a] + [b] + [c], d);
    assert [] + [a] == [a] && [] + Framed(a) == Framed(a);
  }

  lemma StreamSnoc(ms: seq<Message>, m: Message)
    ensures Stream(ms + [m]) == Stream(ms) + Framed(m)
  {
    StreamAppend(ms, [m]);
    assert Stream([m]) == Framed(m) + [] == Framed(m);
  }

  /** What the server sends for the bytes that came in. */
  function Output(answer: Text -> seq<Message>, refusal: Byte -> Text, incoming: Bytes): Bytes {
    Stream(Replies(answer, refusal, Split(incoming).messages))
  }

  function Round(answer: Text -> seq<Message>, refusal: Byte -> Text, m: Message): Bytes {
    Stream(Reply(answer, refusal, m)) + ReadyForQuery()
  }

  lemma OutputStep(answer: Text -> seq<Message>, refusal: Byte -> Text, incoming: Bytes)
    ensures
      match ReadFrame(incoming)
      case Incomplete => Output(answer, refusal, incoming) == []
      case Got(m, rest) =>
        Output(answer, refusal, incoming) ==
        if m.tag == TERMINATE then [] else Round(answer, refusal, m) + Output(answer, refusal, rest)
  {
    match ReadFrame(incoming)
    case Incomplete =>
    case Got(m, rest) =>
      RoundBytes(answer, refusal, m, Split(rest).messages);
  }

  lemma Regroup(a: Bytes, b: Bytes, c: Bytes)
    ensures a + b + c == a + (b + c) && a + [] == a
  {
  }

  /** From the bytes of the client's messages to the messages the client reads back: one round per
      message, in order. */
  lemma ClientReadsAnswers(answer: Text -> seq<Message>, refusal: Byte -> Text, ms: seq<Message>)
    requires AllSendable(ms) && AnswersWell(answer, refusal)
    ensures
      var received := Split(Output(answer, refusal, Stream(ms)));
      && received.unread == [] && |Rounds(received.messages)| == |ms| + 1
      && forall i :: 0 <= i < |ms| ==>
                       Rounds(received.messages)[i] ==
                       if ms[i].tag == 'Q' as int then answer(StripNuls(ms[i].body))
                       else [Message('E' as int, ErrorBody(refusal(ms[i].tag)))]
  {
    StreamReadsBack(ms);
    RepliesSendable(answer, refusal, ms);
    StreamReadsBack(Replies(answer, refusal, ms));
    AnsweredInOrder(answer, refusal, ms);
  }

  class ClientHandler {
    var incoming: Bytes
    var sent: Bytes

    constructor (incoming: Bytes)
      ensures this.incoming == incoming && sent == []
    {
      this.incoming, sent := incoming, [];
    }

    /** reader.readexactly; None is the error a stream that ends too early raises. */
    method ReadExactly(n: nat) returns (r: Option<Bytes>)
      modifies this`incoming
      ensures
        if n <= |old(incoming)| then r == Some(old(incoming)[..n]) && incoming == old(incoming)[n..]
        else r == None && incoming == old(incoming)
    {
      if n > |incoming| {
        return None;
      }
      r := Some(incoming[..n]);
      incoming := incoming[n..];
    }

    method Send(data: Bytes)
      modifies this`sent
      ensures sent == old(sent) + data
    {
      sent := sent + data;
    }

    /** The three reads at the head of the loop. */
    method ReadMessage() returns (r: Option<Message>)
      modifies this`incoming
      ensures
        match ReadFrame(old(incoming))
        case Incomplete => r == None
        case Got(m, rest) => r == Some(m) && incoming == rest
    {
      var all := incoming;
      var tag := ReadExactly(1);
      if tag.None? {
        return None;
      }
      var word := ReadExactly(4);
      if word.None? {
        return None;
      }
      assert word.value == all[1..5] && incoming == all[5..];
      ghost var n := BodyLength(all);
      var length := UInt32(word.value);
      var body := Some([]);
      if length > 4 {
        body := ReadExactly(length - 4);
      }
      if n <= |all| - 5 {
        assert all[5..][..n] == all[5..5 + n] && all[5..][n..] == all[5 + n..];
      }
      if body.None? {
        return None;
      }
      r := Some(Message(tag.value[0], body.value));
    }

    method Answer(answer: Text -> seq<Message>, refusal: Byte -> Text, m: Message)
      requires Refusable(refusal)
      modifies this`sent
      ensures sent == old(sent) + Round(answer, refusal, m)
    {
      if m.tag == QUERY {
        Send(Stream(answer(StripNuls(m.body))) + ReadyForQuery());
      } else {
        var error := ErrorResponse(refusal(m.tag));
        assert Stream(Reply(answer, refusal, m)) == error.value + [];
        Send(error.value + ReadyForQuery());
      }
    }

    method QueryLoop(answer: Text -> seq<Message>, refusal: Byte -> Text)
      requires Refusable(refusal)
      modifies this
      ensures sent == old(sent) + Output(answer, refusal, old(incoming))
    {
      while true
        invariant sent + Output(answer, refusal, incoming) == old(sent) + Output(answer, refusal, old(incoming))
        decreases |incoming|
      {
        ghost var was := sent;
        OutputStep(answer, refusal, incoming);
        var m := ReadMessage();
        if m.None? {
          return;
        }
        if m.value.tag == TERMINATE {
          return;
        }
        Answer(answer, refusal, m.value);
        Regroup(was, Round(answer, refusal, m.value), Output(answer, refusal, incoming));
      }
    }
  }
}
