/** The PostgreSQL wire messages of services/pgvector_compat.py: the builders, the length-prefixed
    reader of the query loop, and the decoders a client applies. Text is its UTF-8 bytes. */
module PgWire {
  import opened Prelude

  type Byte = x: int | 0 <= x < 256

  type Bytes = seq<Byte>

  // ---------------------------------------------------------------- integers

  predicate FitsInt32(v: int) {
    -0x8000_0000 <= v < 0x8000_0000
  }

  predicate FitsInt16(v: int) {
    -0x8000 <= v < 0x8000
  }

  /** The bytes of struct.pack("!i", v) for a v that fits: two's complement, most significant byte first. */
  function Int32(v: int): (bs: Bytes)
    ensures |bs| == 4
  {
    var u := v % 0x1_0000_0000;
    [u / 0x100_0000, u / 0x1_0000 % 256, u / 256 % 256, u % 256]
  }

  /** The bytes of struct.pack("!h", v) for a v that fits. */
  function Int16(v: int): (bs: Bytes)
    ensures |bs| == 2
  {
    var u := v % 0x1_0000;
    [u / 256, u % 256]
  }

  /** struct.unpack("!I", bs) */
  function UInt32(bs: Bytes): (u: nat)
    requires |bs| >= 4
    ensures u < 0x1_0000_0000
  {
    0x100_0000 * (bs[0] as int) + 0x1_0000 * (bs[1] as int) + 256 * (bs[2] as int) + bs[3] as int
  }

  function SignedInt32(bs: Bytes): (v: int)
    requires |bs| >= 4
    ensures FitsInt32(v)
  {
    var u := UInt32(bs);
    if u < 0x8000_0000 then u else u - 0x1_0000_0000
  }

  function SignedInt16(bs: Bytes): (v: int)
    requires |bs| >= 2
    ensures FitsInt16(v)
  {
    var u := 256 * (bs[0] as int) + bs[1] as int;
    if u < 0x8000 then u else u - 0x1_0000
  }

  lemma Digits(u: nat)
    ensures u == u / 0x100_0000 * 0x100_0000 + u / 0x1_0000 % 256 * 0x1_0000 + u / 256 % 256 * 256 + u % 256
  {
    assert u == u / 256 * 256 + u % 256;
    assert u / 256 / 256 == u / 0x1_0000 && u / 0x1_0000 / 256 == u / 0x100_0000;
  }

  lemma Int32RoundTrip(v: int, rest: Bytes)
    requires FitsInt32(v)
    ensures SignedInt32(Int32(v) + rest) == v
    ensures v >= 0 ==> UInt32(Int32(v) + rest) == v
  {
    var bs := Int32(v);
    Digits(v % 0x1_0000_0000);
    assert UInt32(bs + rest) == UInt32(bs) == v % 0x1_0000_0000;
  }

  lemma Composed(a: nat, b: nat, c: nat, d: nat)
    requires a < 256 && b < 256 && c < 256 && d < 256
    ensures
      var u := 0x100_0000 * a + 0x1_0000 * b + 256 * c + d;
      u / 0x100_0000 == a && u / 0x1_0000 % 256 == b && u / 256 % 256 == c && u % 256 == d
  {
    var u := 0x100_0000 * a + 0x1_0000 * b + 256 * c + d;
    assert u / 256 == 0x1_0000 * a + 256 * b + c;
    assert u / 0x1_0000 == 256 * a + b;
  }

  /** The first four bytes are those of the number they stand for. */
  lemma Int32Signed(bs: Bytes)
    requires |bs| >= 4
    ensures Int32(SignedInt32(bs)) == bs[..4]
  {
    Composed(bs[0], bs[1], bs[2], bs[3]);
    assert SignedInt32(bs) % 0x1_0000_0000 == UInt32(bs);
  }

  lemma Int32Only(bs: Bytes)
    requires |bs| == 4
    ensures Int32(UInt32(bs)) == bs
  {
    Int32Signed(bs);
    assert UInt32(bs) % 0x1_0000_0000 == SignedInt32(bs) % 0x1_0000_0000;
  }

  /** The number without its k-th byte and those after it, for the four cuts. */
  lemma Cuts(v: nat)
    requires v < 0x8000_0000
    ensures
      var bs := Int32(v);
      && v / 0x100_0000 == bs[0] as int && v / 0x1_0000 == 256 * (v / 0x100_0000) + bs[1] as int
      && v / 256 == 256 * (v / 0x1_0000) + bs[2] as int && v == 256 * (v / 256) + bs[3] as int
  {
    assert v % 0x1_0000_0000 == v;
    assert v / 256 / 256 == v / 0x1_0000 && v / 0x1_0000 / 256 == v / 0x100_0000;
  }

  lemma CutsOrdered(v: nat, w: nat)
    requires v <= w
    ensures v / 0x100_0000 <= w / 0x100_0000 && v / 0x1_0000 <= w / 0x1_0000 && v / 256 <= w / 256
  {
  }

  predicate FirstDiffer(a: Bytes, b: Bytes, k: nat)
    requires |a| == |b| == 4
  {
    k < 4 && a[..k] == b[..k] && a[k] < b[k]
  }

  /** Most significant byte first: byte strings of non-negative numbers are ordered like the numbers. */
  lemma NetworkOrder(v: nat, w: nat)
    requires v < w && FitsInt32(w)
    ensures exists k: nat :: FirstDiffer(Int32(v), Int32(w), k)
  {
    Cuts(v);
    Cuts(w);
    CutsOrdered(v, w);
    BytesOrdered(Int32(v), Int32(w), v, w);
  }

  lemma BytesOrdered(a: Bytes, b: Bytes, v: nat, w: nat)
    requires |a| == |b| == 4 && v < w
    requires v / 0x100_0000 <= w / 0x100_0000 && v / 0x1_0000 <= w / 0x1_0000 && v / 256 <= w / 256
    requires v / 0x100_0000 == a[0] as int && w / 0x100_0000 == b[0] as int
    requires v / 0x1_0000 == 256 * (v / 0x100_0000) + a[1] as int
    requires w / 0x1_0000 == 256 * (w / 0x100_0000) + b[1] as int
    requires v / 256 == 256 * (v / 0x1_0000) + a[2] as int && w / 256 == 256 * (w / 0x1_0000) + b[2] as int
    requires v == 256 * (v / 256) + a[3] as int && w == 256 * (w / 256) + b[3] as int
    ensures exists k: nat :: FirstDiffer(a, b, k)
  {
    if a[0] != b[0] {
      assert FirstDiffer(a, b, 0);
    } else if a[1] != b[1] {
      assert FirstDiffer(a, b, 1);
    } else if a[2] != b[2] {
      assert FirstDiffer(a, b, 2);
    } else {
      assert FirstDiffer(a, b, 3);
    }
  }

  lemma Int16Signed(bs: Bytes)
    requires |bs| >= 2
    ensures Int16(SignedInt16(bs)) == bs[..2]
  {
    ComposedPair(bs[0], bs[1]);
    assert SignedInt16(bs) % 0x1_0000 == 256 * (bs[0] as int) + bs[1] as int;
  }

  lemma ComposedPair(a: nat, b: nat)
    requires a < 256 && b < 256
    ensures (256 * a + b) / 256 == a && (256 * a + b) % 256 == b
  {
  }

  lemma Int16RoundTrip(v: int, rest: Bytes)
    requires FitsInt16(v)
    ensures SignedInt16(Int16(v) + rest) == v
  {
  }

  /** The short integers have the byte order of the long ones. */
  lemma Int16IsLowHalf(v: int)
    requires FitsInt16(v)
    ensures Int16(v) == Int32(v)[2..]
  {
    var u, w := v % 0x1_0000_0000, v % 0x1_0000;
    assert u % 0x1_0000 == w;
    LowHalf(u);
  }

  lemma LowHalf(u: nat)
    ensures u / 256 % 256 == u % 0x1_0000 / 256 && u % 256 == u % 0x1_0000 % 256
  {
    var h, l := u / 0x1_0000, u % 0x1_0000;
    assert u == 256 * (256 * h + l / 256) + l % 256;
    assert u / 256 == 256 * h + l / 256 && u % 256 == l % 256;
  }

  // ---------------------------------------------------------------- frames

  datatype Message = Message(tag: Byte, body: Bytes)

  predicate Framable(m: Message) {
    FitsInt32(4 + |m.body|)
  }

  function Framed(m: Message): (bs: Bytes)
    ensures |bs| == 5 + |m.body|
  {
    [m.tag] + Int32(4 + |m.body|) + m.body
  }

  function Stream(ms: seq<Message>): Bytes {
    if ms == [] then [] else Framed(ms[0]) + Stream(ms[1..])
  }

  datatype Read = Incomplete | Got(message: Message, rest: Bytes)

  /** How many body bytes the length word announces; words below four mean none. */
  function BodyLength(stream: Bytes): nat
    requires |stream| >= 5
  {
    var length := UInt32(stream[1..5]);
    if length > 4 then length - 4 else 0
  }

  /** One turn of the query loop's reads. */
  function ReadFrame(stream: Bytes): (r: Read)
    ensures r.Got? ==> |r.rest| < |stream|
  {
    if |stream| < 5 then Incomplete else
      var n := BodyLength(stream);
      if |stream| < 5 + n then Incomplete else Got(Message(stream[0], stream[5..5 + n]), stream[5 + n..])
  }

  const TERMINATE: Byte := 88

  datatype Ending = Terminated | Cut

  datatype Session = Session(messages: seq<Message>, ending: Ending, unread: Bytes)

  function Prepend(ms: seq<Message>, s: Session): Session {
    Session(ms + s.messages, s.ending, s.unread)
  }

  lemma PrependTwice(a: seq<Message>, b: seq<Message>, s: Session)
    ensures Prepend(a, Prepend(b, s)) == Prepend(a + b, s)
    ensures Prepend([], s) == s
  {
    assert a + (b + s.messages) == a + b + s.messages;
  }

  /** All the messages up to a Terminate message or the end of what can be read. */
  function Split(stream: Bytes): Session
    decreases |stream|
  {
    match ReadFrame(stream)
    case Incomplete => Session([], Cut, stream)
    case Got(m, rest) =>
      if m.tag == TERMINATE then Session([], Terminated, rest) else
        Prepend([m], Split(rest))
  }

  lemma ReadFramed(m: Message, rest: Bytes)
    requires Framable(m)
    ensures ReadFrame(Framed(m) + rest) == Got(m, rest)
  {
    var stream := Framed(m) + rest;
    assert stream[1..5] == Int32(4 + |m.body|);
    Int32RoundTrip(4 + |m.body|, []);
    assert Int32(4 + |m.body|) + [] == Int32(4 + |m.body|);
    assert stream[5..5 + |m.body|] == m.body;
    assert stream[5 + |m.body|..] == rest;
  }

  /** Messages whose length fits the length word and that do not end the session. */
  ghost predicate AllSendable(ms: seq<Message>) {
    forall i :: 0 <= i < |ms| ==> Framable(ms[i]) && ms[i].tag != TERMINATE
  }

  lemma StreamFirst(ms: seq<Message>, rest: Bytes)
    requires ms != []
    ensures Stream(ms) + rest == Framed(ms[0]) + (Stream(ms[1..]) + rest)
  {
  }

  /** Any concatenation of messages is read back as those messages, and the rest is what follows. */
  lemma {:induction false} SplitStream(ms: seq<Message>, rest: Bytes)
    requires AllSendable(ms)
    ensures Split(Stream(ms) + rest) == Prepend(ms, Split(rest))
  {
    if ms == [] {
      assert Stream(ms) + rest == rest;
      PrependTwice([], [], Split(rest));
    } else {
      StreamFirst(ms, rest);
      SplitStream(ms[1..], rest);
      SplitFirst(ms[0], Stream(ms[1..]) + rest);
      PrependTwice([ms[0]], ms[1..], Split(rest));
      assert [ms[0]] + ms[1..] == ms;
    }
  }

  lemma SplitFirst(m: Message, tail: Bytes)
    requires Framable(m) && m.tag != TERMINATE
    ensures Split(Framed(m) + tail) == Prepend([m], Split(tail))
  {
    ReadFramed(m, tail);
  }

  lemma StreamReadsBack(ms: seq<Message>)
    requires AllSendable(ms)
    ensures Split(Stream(ms)) == Session(ms, Cut, [])
  {
    SplitStream(ms, []);
    assert Stream(ms) + [] == Stream(ms);
    assert ms + [] == ms;
  }

  /** Nothing after a Terminate message is read. */
  lemma TerminateStops(ms: seq<Message>, body: Bytes, rest: Bytes)
    requires AllSendable(ms)
    requires Framable(Message('X' as int, body))
    ensures Split(Stream(ms) + (Framed(Message('X' as int, body)) + rest)) == Session(ms, Terminated, rest)
  {
    ReadFramed(Message(TERMINATE, body), rest);
    SplitStream(ms, Framed(Message(TERMINATE, body)) + rest);
    assert ms + [] == ms;
  }

  lemma ReadMore(a: Bytes, b: Bytes)
    requires ReadFrame(a).Got?
    ensures ReadFrame(a + b) == Got(ReadFrame(a).message, ReadFrame(a).rest + b)
  {
    assert (a + b)[1..5] == a[1..5];
    var n := BodyLength(a);
    assert (a + b)[5..5 + n] == a[5..5 + n];
    assert (a + b)[5 + n..] == a[5 + n..] + b;
  }

  /** How the bytes arrive does not matter: what was cut off is read again with what follows. */
  lemma {:induction false} SplitResumes(a: Bytes, b: Bytes)
    requires Split(a).ending == Cut
    ensures Split(a + b) == Prepend(Split(a).messages, Split(Split(a).unread + b))
    decreases |a|
  {
    if ReadFrame(a).Got? {
      var m, rest := ReadFrame(a).message, ReadFrame(a).rest;
      ReadMore(a, b);
      SplitResumes(rest, b);
      PrependTwice([m], Split(rest).messages, Split(Split(rest).unread + b));
    } else {
      PrependTwice([], [], Split(a + b));
    }
  }

  /** A message read is the one whose bytes came in exactly if its length word was at least four; a word
      of 2^31 or more announces a message too long for anybody to have packed. */
  lemma ReadExactly(stream: Bytes)
    requires ReadFrame(stream).Got?
    ensures stream == Framed(ReadFrame(stream).message) + ReadFrame(stream).rest <==> UInt32(stream[1..5]) >= 4
    ensures Framable(ReadFrame(stream).message) <==> UInt32(stream[1..5]) < 0x8000_0000
  {
    var m, rest := ReadFrame(stream).message, ReadFrame(stream).rest;
    var n := BodyLength(stream);
    var length := UInt32(stream[1..5]);
    Int32Only(stream[1..5]);
    if length >= 4 {
      assert stream == [stream[0]] + stream[1..5] + stream[5..5 + n] + stream[5 + n..];
    } else {
      Int32RoundTrip(4, []);
      assert Int32(4) + [] == Int32(4);
      assert (Framed(m) + rest)[1..5] == Int32(4);
    }
  }
}
