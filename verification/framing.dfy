/**
 * The wire format: a type byte, a four-byte length, and that many body bytes.
 *
 * `Decode` is the reference reading of a byte string, independent of how the server's parser
 * stores its progress.  It knows three things the server does that the format does not say:
 * a header above the size limit is dropped alone, leaving its body to be read as headers;
 * a header of length zero is never got past; and an incomplete frame is kept.
 */
module Framing {
  import opened Bytes

  const MAX_MESSAGE_SIZE: nat := 1024 * 1024 * 10
  const HEADER_SIZE: nat := 5

  datatype Message = Message(typeVec: seq<byte>, sizeVec: seq<byte>, bytesVec: seq<byte>)

  const EMPTY_MESSAGE := Message([], [], [])

  /** What every message that reaches the queue looks like. */
  predicate WellFormed(m: Message) {
    && |m.typeVec| == 1
    && |m.sizeVec| == 4
    && 1 <= |m.bytesVec| == U32(m.sizeVec) <= MAX_MESSAGE_SIZE
  }

  /** A stretch of the stream that the server consumes: a message, or an oversize header. */
  datatype Item = Frame(message: Message) | Skipped(header: seq<byte>)

  predicate ItemOk(i: Item) {
    match i
    case Frame(m) => WellFormed(m)
    case Skipped(h) => |h| == HEADER_SIZE && U32(h[1..]) > MAX_MESSAGE_SIZE
  }

  predicate ItemsOk(items: seq<Item>) {
    forall k :: 0 <= k < |items| ==> ItemOk(items[k])
  }

  function ItemBytes(i: Item): seq<byte> {
    match i
    case Frame(m) => m.typeVec + m.sizeVec + m.bytesVec
    case Skipped(h) => h
  }

  function Wire(items: seq<Item>): seq<byte> {
    if items == [] then [] else ItemBytes(items[0]) + Wire(items[1..])
  }

  function FrameOf(i: Item): (ms: seq<Message>)
    ensures |ms| <= 1
  {
    match i
    case Frame(m) => [m]
    case Skipped(_) => []
  }

  function FramesOf(items: seq<Item>): (ms: seq<Message>)
    ensures |ms| <= |items|
  {
    if items == [] then []
    else FrameOf(items[0]) + FramesOf(items[1..])
  }

  /** What stands at the front of a byte string. */
  datatype Head = Ready(item: Item) | NeedMore | ZeroLength

  function HeadOf(b: seq<byte>): (h: Head)
    ensures h.Ready? ==> HEADER_SIZE <= |ItemBytes(h.item)| <= |b|
  {
    if |b| < HEADER_SIZE then NeedMore
    else
      var n := U32(b[1..HEADER_SIZE]);
      if n == 0 then ZeroLength
      else if n > MAX_MESSAGE_SIZE then Ready(Skipped(b[..HEADER_SIZE]))
      else if |b| - HEADER_SIZE < n then NeedMore
      else Ready(Frame(Message(b[..1], b[1..HEADER_SIZE], b[HEADER_SIZE..HEADER_SIZE + n])))
  }

  datatype Decoded = Decoded(items: seq<Item>, rest: seq<byte>)

  function Decode(b: seq<byte>): Decoded
    decreases |b|
  {
    match HeadOf(b)
    case Ready(i) => var d := Decode(b[|ItemBytes(i)|..]); Decoded([i] + d.items, d.rest)
    case _ => Decoded([], b)
  }

  lemma HeadOfItem(i: Item, x: seq<byte>)
    requires ItemOk(i)
    ensures HeadOf(ItemBytes(i) + x) == Ready(i)
  {
    var b := ItemBytes(i) + x;
    match i
    case Frame(m) =>
      assert b[..1] == m.typeVec && b[1..HEADER_SIZE] == m.sizeVec;
      assert b[HEADER_SIZE..HEADER_SIZE + |m.bytesVec|] == m.bytesVec;
    case Skipped(h) =>
      assert b[..HEADER_SIZE] == h && b[1..HEADER_SIZE] == h[1..];
  }

  lemma {:induction false} DecodeItem(i: Item, x: seq<byte>)
    requires ItemOk(i)
    ensures Decode(ItemBytes(i) + x) == Decoded([i] + Decode(x).items, Decode(x).rest)
  {
    HeadOfItem(i, x);
    assert (ItemBytes(i) + x)[|ItemBytes(i)|..] == x;
  }

  /** Whatever follows a run of items does not change how they are read. */
  lemma {:induction false} DecodeWire(items: seq<Item>, x: seq<byte>)
    requires ItemsOk(items)
    ensures Decode(Wire(items) + x) == Decoded(items + Decode(x).items, Decode(x).rest)
  {
    if items == [] {
      assert Wire(items) + x == x;
    } else {
      Assoc(ItemBytes(items[0]), Wire(items[1..]), x);
      DecodeItem(items[0], Wire(items[1..]) + x);
      DecodeWire(items[1..], x);
      ConsAppend(items, Decode(x).items);
    }
  }

  lemma CutAt(b: seq<byte>, n: nat)
    requires n <= |b|
    ensures b == b[..n] + b[n..]
    ensures n >= HEADER_SIZE ==> b[..1] + b[1..HEADER_SIZE] + b[HEADER_SIZE..n] == b[..n]
    ensures n >= HEADER_SIZE ==> b[..n][1..HEADER_SIZE] == b[1..HEADER_SIZE]
  {
  }

  lemma HeadIsPrefix(b: seq<byte>)
    requires HeadOf(b).Ready?
    ensures ItemOk(HeadOf(b).item) && b == ItemBytes(HeadOf(b).item) + b[|ItemBytes(HeadOf(b).item)|..]
  {
    var size := b[1..HEADER_SIZE];
    var n := U32(size);
    var k := if n <= MAX_MESSAGE_SIZE then HEADER_SIZE + n else HEADER_SIZE;
    CutAt(b, k);
    hide U32;
    assert ItemBytes(HeadOf(b).item) == b[..k];
    assert n > MAX_MESSAGE_SIZE ==> b[..HEADER_SIZE][1..] == size;
  }

  /** Decoding loses no byte, and stops only where no item stands. */
  lemma {:induction false} DecodeInverse(b: seq<byte>)
    ensures var d := Decode(b);
            ItemsOk(d.items) && b == Wire(d.items) + d.rest && !HeadOf(d.rest).Ready?
    decreases |b|
  {
    if HeadOf(b).Ready? {
      var i := HeadOf(b).item;
      var tail := b[|ItemBytes(i)|..];
      HeadIsPrefix(b);
      DecodeInverse(tail);
      WireCons(i, Decode(tail).items);
      Assoc(ItemBytes(i), Wire(Decode(tail).items), Decode(tail).rest);
    }
  }

  lemma WireCons(i: Item, items: seq<Item>)
    ensures Wire([i] + items) == ItemBytes(i) + Wire(items)
  {
  }

  /** There is one way to cut a byte string into items, and `Decode` finds it. */
  lemma {:induction false} DecodeUnique(b: seq<byte>, items: seq<Item>, rest: seq<byte>)
    ensures (ItemsOk(items) && b == Wire(items) + rest && !HeadOf(rest).Ready?)
       <==> Decode(b) == Decoded(items, rest)
  {
    DecodeInverse(b);
    if ItemsOk(items) && b == Wire(items) + rest && !HeadOf(rest).Ready? {
      DecodeWire(items, rest);
    }
  }

  lemma {:induction false} WireAppend(xs: seq<Item>, ys: seq<Item>)
    ensures Wire(xs + ys) == Wire(xs) + Wire(ys)
  {
    if xs == [] {
      assert xs + ys == ys;
    } else {
      assert (xs + ys)[1..] == xs[1..] + ys;
      WireAppend(xs[1..], ys);
      Assoc(ItemBytes(xs[0]), Wire(xs[1..]), Wire(ys));
    }
  }

  lemma {:induction false} FramesAppend(xs: seq<Item>, ys: seq<Item>)
    ensures FramesOf(xs + ys) == FramesOf(xs) + FramesOf(ys)
  {
    if xs == [] {
      assert xs + ys == ys;
    } else {
      assert (xs + ys)[1..] == xs[1..] + ys;
      FramesAppend(xs[1..], ys);
      Assoc(FrameOf(xs[0]), FramesOf(xs[1..]), FramesOf(ys));
    }
  }

  lemma {:induction false} FramesWellFormed(items: seq<Item>)
    requires ItemsOk(items)
    ensures forall k :: 0 <= k < |FramesOf(items)| ==> WellFormed(FramesOf(items)[k])
  {
    if items != [] {
      FramesWellFormed(items[1..]);
    }
  }

  /** Reading `x` and then the rest with `y` behind it is reading `x + y`. */
  lemma DecodeAppend(x: seq<byte>, y: seq<byte>)
    ensures var d := Decode(x); var e := Decode(d.rest + y);
            Decode(x + y) == Decoded(d.items + e.items, e.rest)
  {
    var d := Decode(x);
    DecodeInverse(x);
    Assoc(Wire(d.items), d.rest, y);
    DecodeWire(d.items, d.rest + y);
  }

  // ---------- The sender's view ----------

  /** One message as a client lays it out; the length field keeps the low 32 bits. */
  function Encode(kind: byte, body: seq<byte>): seq<byte> {
    [kind] + Be32(|body|) + body
  }

  function MessageOf(kind: byte, body: seq<byte>): Message {
    Message([kind], Be32(|body|), body)
  }

  lemma EncodedHead(kind: byte, body: seq<byte>)
    requires 1 <= |body| <= MAX_MESSAGE_SIZE
    ensures ItemOk(Frame(MessageOf(kind, body)))
    ensures HeadOf(Encode(kind, body)) == Ready(Frame(MessageOf(kind, body)))
  {
    hide HeadOf, U32, Be32;
    var i := Frame(MessageOf(kind, body));
    HeadOfItem(i, []);
    assert ItemBytes(i) + [] == Encode(kind, body);
  }

  datatype Outgoing = Outgoing(kind: byte, body: seq<byte>)

  function EncodeAll(ms: seq<Outgoing>): seq<byte> {
    if ms == [] then [] else Encode(ms[0].kind, ms[0].body) + EncodeAll(ms[1..])
  }

  function ItemsFor(ms: seq<Outgoing>): seq<Item> {
    seq(|ms|, k requires 0 <= k < |ms| => Frame(MessageOf(ms[k].kind, ms[k].body)))
  }

  function MessagesFor(ms: seq<Outgoing>): seq<Message> {
    seq(|ms|, k requires 0 <= k < |ms| => MessageOf(ms[k].kind, ms[k].body))
  }

  predicate Sendable(ms: seq<Outgoing>) {
    forall k :: 0 <= k < |ms| ==> 1 <= |ms[k].body| <= MAX_MESSAGE_SIZE
  }

  lemma {:induction false} EncodeAllIsWire(ms: seq<Outgoing>)
    ensures EncodeAll(ms) == Wire(ItemsFor(ms)) && FramesOf(ItemsFor(ms)) == MessagesFor(ms)
  {
    if ms != [] {
      assert ItemsFor(ms)[1..] == ItemsFor(ms[1..]);
      assert MessagesFor(ms) == [MessageOf(ms[0].kind, ms[0].body)] + MessagesFor(ms[1..]);
      EncodeAllIsWire(ms[1..]);
    }
  }

  lemma {:induction false} EncodeAllAppend(xs: seq<Outgoing>, ys: seq<Outgoing>)
    ensures EncodeAll(xs + ys) == EncodeAll(xs) + EncodeAll(ys)
  {
    if xs == [] {
      assert xs + ys == ys;
    } else {
      assert (xs + ys)[1..] == xs[1..] + ys;
      EncodeAllAppend(xs[1..], ys);
    }
  }

  lemma ItemsOkWhen(ms: seq<Outgoing>)
    ensures ItemsOk(ItemsFor(ms)) <==> Sendable(ms)
  {
    forall k | 0 <= k < |ms|
      ensures ItemOk(ItemsFor(ms)[k]) <==> 1 <= |ms[k].body| <= MAX_MESSAGE_SIZE
    {
      assert ItemsFor(ms)[k] == Frame(MessageOf(ms[k].kind, ms[k].body));
    }
    if ItemsOk(ItemsFor(ms)) {
      forall k | 0 <= k < |ms| ensures 1 <= |ms[k].body| <= MAX_MESSAGE_SIZE {
        assert ItemOk(ItemsFor(ms)[k]);
      }
    }
  }

  /**
   * The stream of a list of messages reads back as exactly that list with nothing left over,
   * precisely when every body holds between one byte and 10 MiB.
   */
  lemma RoundTripExactlyWhen(ms: seq<Outgoing>)
    ensures Decode(EncodeAll(ms)) == Decoded(ItemsFor(ms), []) <==> Sendable(ms)
    ensures Sendable(ms) <==> forall k :: 0 <= k < |ms| ==> 1 <= |ms[k].body| <= 10485760
  {
    var items := ItemsFor(ms);
    assert EncodeAll(ms) == Wire(items) + [] by {
      EncodeAllIsWire(ms);
    }
    assert !HeadOf([]).Ready?;
    DecodeUnique(EncodeAll(ms), items, []);
    ItemsOkWhen(ms);
  }
}
