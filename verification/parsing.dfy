/**
 * The resumable parser of a session, as values: one turn of the loop in `ParseMessage`, the loop,
 * and what the loop amounts to in terms of the bytes that are pending.
 */
module Parsing {
  import opened Bytes
  import opened Framing

  /** The half-built message, the queue of complete ones, and the bytes received but not yet used. */
  datatype Parser = Parser(message: Message, messages: seq<Message>, request: seq<byte>)

  const START := Parser(EMPTY_MESSAGE, [], [])

  /** The bytes received and not yet turned into a queued message or dropped. */
  function Pending(p: Parser): seq<byte> {
    p.message.typeVec + p.message.sizeVec + p.message.bytesVec + p.request
  }

  /** Between calls a message is built field by field, and its body is never held back. */
  predicate Shape(p: Parser) {
    var m := p.message;
    && (|m.typeVec| == 0 || |m.typeVec| == 1)
    && (|m.sizeVec| == 0 || |m.sizeVec| == 4)
    && (m.sizeVec != [] ==> m.typeVec != [])
    && m.bytesVec == []
  }

  // ---------- One turn of the loop ----------

  datatype Turn = Returns(parser: Parser) | Repeats(parser: Parser)

  function Iterate(p: Parser): Turn {
    match GatherHeader(p)
    case Returns(q) => Returns(q)
    case Repeats(q) => TakeBody(q)
  }

  /** The first two steps of a turn: complete the type byte, then the four size bytes. */
  function GatherHeader(p: Parser): (t: Turn)
    ensures t.Repeats? ==> |t.parser.message.sizeVec| >= 4
  {
    if |p.message.typeVec| != 1 && |p.request| < 1 then Returns(p)
    else
      var p1 := if |p.message.typeVec| == 1 then p else WithType(p);
      if |p1.message.sizeVec| == 4 then Repeats(p1)
      else if |p1.request| < 4 then Returns(p1)
      else Repeats(WithSize(p1))
  }

  /** The last step: a limit check, then the body, all at once or not at all. */
  function TakeBody(p: Parser): Turn
    requires |p.message.sizeVec| >= 4
  {
    var len := U32(p.message.sizeVec);
    if |p.message.bytesVec| == len then Repeats(p)
    else if len > MAX_MESSAGE_SIZE then Returns(p.(message := EMPTY_MESSAGE))
    else if |p.request| < len then Returns(p)
    else
      var full := p.message.(bytesVec := p.message.bytesVec + p.request[..len]);
      if |full.bytesVec| == len
      then Repeats(Parser(EMPTY_MESSAGE, p.messages + [full], p.request[len..]))
      else Returns(Parser(full, p.messages, p.request[len..]))
  }

  function WithType(p: Parser): Parser
    requires |p.request| >= 1
  {
    Parser(p.message.(typeVec := p.message.typeVec + p.request[..1]), p.messages, p.request[1..])
  }

  function WithSize(p: Parser): Parser
    requires |p.request| >= 4
  {
    Parser(p.message.(sizeVec := p.message.sizeVec + p.request[..4]), p.messages, p.request[4..])
  }

  /** At most `n` turns: `Returns` when the function returns within them. */
  function Loop(p: Parser, n: nat): Turn
    decreases n
  {
    if n == 0 then Repeats(p)
    else
      match Iterate(p)
      case Returns(q) => Returns(q)
      case Repeats(q) => Loop(q, n - 1)
  }

  // ---------- What the loop amounts to ----------

  /** Why the parser goes no further. */
  datatype Halt = Starved | Oversize | Spinning

  datatype Scanned = Scanned(items: seq<Item>, rest: seq<byte>, halt: Halt)

  /** `Decode`, cut short after the first oversize header. */
  function Scan(b: seq<byte>): Scanned
    decreases |b|
  {
    match HeadOf(b)
    case NeedMore => Scanned([], b, Starved)
    case ZeroLength => Scanned([], b, Spinning)
    case Ready(i) =>
      var tail := b[|ItemBytes(i)|..];
      if i.Skipped? then Scanned([i], tail, Oversize)
      else var sc := Scan(tail); Scanned([i] + sc.items, sc.rest, sc.halt)
  }

  /** The fields of the half-built message when `rest` is left over. */
  function Held(rest: seq<byte>, halt: Halt): Message {
    if halt.Oversize? || |rest| < 1 then EMPTY_MESSAGE
    else if |rest| < HEADER_SIZE then Message(rest[..1], [], [])
    else Message(rest[..1], rest[1..HEADER_SIZE], [])
  }

  /** The parser with `ms` queued and `rest` pending, stored the way `ParseMessage` leaves it. */
  function Resting(ms: seq<Message>, rest: seq<byte>, halt: Halt): Parser {
    var held := Held(rest, halt);
    Parser(held, ms, rest[|held.typeVec| + |held.sizeVec|..])
  }

  lemma RestingHolds(ms: seq<Message>, rest: seq<byte>, halt: Halt)
    ensures Shape(Resting(ms, rest, halt)) && Pending(Resting(ms, rest, halt)) == rest
  {
  }

  /** Where `ParseMessage` ends up; with `Halt.Spinning`, the state it never leaves. */
  function ParsedTo(p: Parser): Parser {
    var sc := Scan(Pending(p));
    Resting(p.messages + FramesOf(sc.items), sc.rest, sc.halt)
  }

  function HaltOf(p: Parser): Halt {
    Scan(Pending(p)).halt
  }

  lemma HeaderGathered(p: Parser)
    requires Shape(p)
    ensures var b := Pending(p);
            GatherHeader(p) ==
            if |b| < HEADER_SIZE then Returns(Resting(p.messages, b, Starved))
            else Repeats(Parser(Message(b[..1], b[1..HEADER_SIZE], []), p.messages, b[HEADER_SIZE..]))
  {
  }

  lemma BodyTaken(b: seq<byte>, ms: seq<Message>)
    requires |b| >= HEADER_SIZE
    ensures var turn := TakeBody(Parser(Message(b[..1], b[1..HEADER_SIZE], []), ms, b[HEADER_SIZE..]));
            match HeadOf(b)
            case NeedMore => turn == Returns(Resting(ms, b, Starved))
            case ZeroLength => turn == Repeats(Resting(ms, b, Spinning))
            case Ready(Skipped(_)) => turn == Returns(Resting(ms, b[HEADER_SIZE..], Oversize))
            case Ready(Frame(m)) => turn == Repeats(Parser(EMPTY_MESSAGE, ms + [m], b[|ItemBytes(Frame(m))|..]))
  {
    var n := U32(b[1..HEADER_SIZE]);
    if 0 < n <= MAX_MESSAGE_SIZE && n <= |b| - HEADER_SIZE {
      assert [] + b[HEADER_SIZE..][..n] == b[HEADER_SIZE..HEADER_SIZE + n];
      assert b[HEADER_SIZE..][n..] == b[HEADER_SIZE + n..];
    }
  }

  /** What one turn does to the pending bytes. */
  lemma TurnTakesHead(p: Parser)
    requires Shape(p)
    ensures var b := Pending(p);
            match HeadOf(b)
            case NeedMore => Iterate(p) == Returns(Resting(p.messages, b, Starved))
            case ZeroLength => Iterate(p) == Repeats(Resting(p.messages, b, Spinning))
            case Ready(Skipped(_)) => Iterate(p) == Returns(Resting(p.messages, b[HEADER_SIZE..], Oversize))
            case Ready(Frame(m)) =>
              Iterate(p) == Repeats(Parser(EMPTY_MESSAGE, p.messages + [m], b[|ItemBytes(Frame(m))|..]))
  {
    HeaderGathered(p);
    if |Pending(p)| >= HEADER_SIZE {
      BodyTaken(Pending(p), p.messages);
    }
  }

  /**
   * Every turn that goes round again has used up request bytes, unless a zero-length header is
   * pending: then the turn changes nothing at all.
   */
  lemma TurnMakesProgress(p: Parser)
    requires Shape(p) && Iterate(p).Repeats?
    ensures var q := Iterate(p).parser;
            |q.request| < |p.request| || (q == p && HeadOf(Pending(p)).ZeroLength?)
  {
  }

  /** Queueing a message does not change where the parser is heading. */
  lemma ParsedToAfterFrame(p: Parser, q: Parser)
    requires HeadOf(Pending(p)).Ready? && HeadOf(Pending(p)).item.Frame?
    requires q.messages == p.messages + [HeadOf(Pending(p)).item.message]
    requires Pending(q) == Pending(p)[|ItemBytes(HeadOf(Pending(p)).item)|..]
    ensures ParsedTo(q) == ParsedTo(p) && HaltOf(q) == HaltOf(p)
  {
    var i := HeadOf(Pending(p)).item;
    var items := Scan(Pending(q)).items;
    FramesOfOne(i);
    FramesAppend([i], items);
    Assoc(p.messages, [i.message], FramesOf(items));
  }

  lemma ParsedToAtHalt(p: Parser)
    requires !(HeadOf(Pending(p)).Ready? && HeadOf(Pending(p)).item.Frame?)
    ensures var b := Pending(p);
            match HeadOf(b)
            case NeedMore => ParsedTo(p) == Resting(p.messages, b, Starved) && HaltOf(p) == Starved
            case ZeroLength => ParsedTo(p) == Resting(p.messages, b, Spinning) && HaltOf(p) == Spinning
            case Ready(_) => ParsedTo(p) == Resting(p.messages, b[HEADER_SIZE..], Oversize) && HaltOf(p) == Oversize
  {
    assert p.messages + [] == p.messages;
    if HeadOf(Pending(p)).Ready? {
      FramesOfOne(HeadOf(Pending(p)).item);
    }
  }

  /** Running turns reaches `ParsedTo(p)`, in a number of turns that depends on the input. */
  lemma {:induction false} LoopReaches(p: Parser) returns (n: nat)
    requires Shape(p)
    ensures n > 0 && Loop(p, n) == if HaltOf(p).Spinning? then Repeats(ParsedTo(p)) else Returns(ParsedTo(p))
    ensures HaltOf(p).Spinning? ==> Iterate(ParsedTo(p)) == Repeats(ParsedTo(p))
    decreases |Pending(p)|
  {
    hide Iterate, HeadOf, ParsedTo, HaltOf, Scan, ItemBytes;
    TurnTakesHead(p);
    if HeadOf(Pending(p)).Ready? && HeadOf(Pending(p)).item.Frame? {
      var q := Iterate(p).parser;
      ParsedToAfterFrame(p, q);
      var k := LoopReaches(q);
      n := k + 1;
    } else {
      n := 1;
      ParsedToAtHalt(p);
      assert Loop(p, 1) == Iterate(p);
      if HeadOf(Pending(p)).ZeroLength? {
        RestingHolds(p.messages, Pending(p), Spinning);
        TurnTakesHead(ParsedTo(p));
      }
    }
  }

  lemma FramesOfOne(i: Item)
    ensures FramesOf([i]) == FrameOf(i)
  {
  }

  /** Once a turn changes nothing, no number of further turns returns. */
  lemma {:induction false} LoopStuck(p: Parser, n: nat)
    requires Iterate(p) == Repeats(p)
    ensures Loop(p, n) == Repeats(p)
  {
    if n > 0 {
      LoopStuck(p, n - 1);
    }
  }

  lemma {:induction false} LoopSplit(p: Parser, m: nat, n: nat)
    ensures Loop(p, m + n) == match Loop(p, m) case Returns(q) => Returns(q) case Repeats(q) => Loop(q, n)
    decreases m
  {
    if m > 0 && Iterate(p).Repeats? {
      LoopSplit(Iterate(p).parser, m - 1, n);
    }
  }

  lemma LoopNext(p: Parser, n: nat, q: Parser)
    requires Loop(p, n) == Repeats(q)
    ensures Loop(p, n + 1) == Iterate(q)
  {
    LoopSplit(p, n, 1);
    assert Loop(q, 1) == Iterate(q);
  }

  /** However many turns are tried, a return is a return to `ParsedTo(p)`. */
  lemma LoopAgrees(p: Parser, n: nat)
    requires Shape(p)
    ensures Loop(p, n).Returns? ==> !HaltOf(p).Spinning? && Loop(p, n).parser == ParsedTo(p)
  {
    var k := LoopReaches(p);
    LoopSplit(p, k, n);
    LoopSplit(p, n, k);
    assert k + n == n + k;
    if HaltOf(p).Spinning? {
      LoopStuck(ParsedTo(p), n);
    }
  }

  /** A state that a turn leaves alone is reached only by spinning, and there is only one such state. */
  lemma SpinAgrees(p: Parser, n: nat, q: Parser)
    requires Shape(p)
    requires Loop(p, n) == Repeats(q) && Iterate(q) == Repeats(q)
    ensures HaltOf(p).Spinning? && q == ParsedTo(p)
  {
    var k := LoopReaches(p);
    LoopSplit(p, k, n);
    LoopSplit(p, n, k);
    assert k + n == n + k;
    LoopStuck(q, k);
    if HaltOf(p).Spinning? {
      LoopStuck(ParsedTo(p), n);
    }
  }

  /** `ParseMessage` returns if and only if no zero-length header is reached. */
  lemma ReturnsExactlyWhen(p: Parser)
    requires Shape(p)
    ensures (exists n: nat :: Loop(p, n).Returns?) <==> !HaltOf(p).Spinning?
  {
    var k := LoopReaches(p);
    forall n: nat ensures Loop(p, n).Returns? ==> !HaltOf(p).Spinning? {
      LoopAgrees(p, n);
    }
  }

  // ---------- Scanning and decoding ----------

  /** A scan loses no byte, and is as much of the decoding as the parser performs. */
  lemma {:induction false} ScanConserves(b: seq<byte>)
    ensures var sc := Scan(b);
            && ItemsOk(sc.items)
            && b == Wire(sc.items) + sc.rest
            && (sc.halt.Starved? ==> HeadOf(sc.rest).NeedMore?)
            && (sc.halt.Spinning? ==> HeadOf(sc.rest).ZeroLength?)
    decreases |b|
  {
    if HeadOf(b).Ready? {
      var i := HeadOf(b).item;
      var tail := b[|ItemBytes(i)|..];
      HeadIsPrefix(b);
      if i.Skipped? {
        WireCons(i, []);
        assert ItemBytes(i) + [] == ItemBytes(i) && [i] + [] == [i];
      } else {
        ScanConserves(tail);
        WireCons(i, Scan(tail).items);
        Assoc(ItemBytes(i), Wire(Scan(tail).items), Scan(tail).rest);
      }
    }
  }

  lemma {:induction false} ScanThenDecode(b: seq<byte>)
    ensures var sc := Scan(b); var d := Decode(sc.rest);
            Decode(b) == Decoded(sc.items + d.items, d.rest)
  {
    ScanConserves(b);
    DecodeWire(Scan(b).items, Scan(b).rest);
  }

  lemma ScanFrame(m: Message, x: seq<byte>)
    requires WellFormed(m)
    ensures var sc := Scan(x);
            Scan(ItemBytes(Frame(m)) + x) == Scanned([Frame(m)] + sc.items, sc.rest, sc.halt)
  {
    HeadOfItem(Frame(m), x);
    assert (ItemBytes(Frame(m)) + x)[|ItemBytes(Frame(m))|..] == x;
  }

  predicate AllFrames(items: seq<Item>) {
    forall k :: 0 <= k < |items| ==> items[k].Frame?
  }

  lemma {:induction false} ScanWire(items: seq<Item>, x: seq<byte>)
    requires ItemsOk(items) && AllFrames(items)
    ensures var sc := Scan(x); Scan(Wire(items) + x) == Scanned(items + sc.items, sc.rest, sc.halt)
  {
    if items == [] {
      assert Wire(items) + x == x;
    } else {
      Assoc(ItemBytes(items[0]), Wire(items[1..]), x);
      ScanFrame(items[0].message, Wire(items[1..]) + x);
      ScanWire(items[1..], x);
      ConsAppend(items, Scan(x).items);
    }
  }

  lemma {:induction false} ScanStopsAtSkip(b: seq<byte>)
    ensures !Scan(b).halt.Oversize? ==> AllFrames(Scan(b).items)
    decreases |b|
  {
    if HeadOf(b).Ready? {
      ScanStopsAtSkip(b[|ItemBytes(HeadOf(b).item)|..]);
    }
  }

  lemma HeadKept(x: seq<byte>, y: seq<byte>)
    ensures !HeadOf(x).NeedMore? ==> HeadOf(x + y) == HeadOf(x)
    ensures HeadOf(x + y).NeedMore? ==> HeadOf(x).NeedMore?
  {
    if |x| >= HEADER_SIZE {
      assert (x + y)[1..HEADER_SIZE] == x[1..HEADER_SIZE];
      assert (x + y)[..1] == x[..1];
      assert (x + y)[..HEADER_SIZE] == x[..HEADER_SIZE];
      var n := U32(x[1..HEADER_SIZE]);
      if |x| - HEADER_SIZE >= n {
        assert (x + y)[HEADER_SIZE..HEADER_SIZE + n] == x[HEADER_SIZE..HEADER_SIZE + n];
      }
    }
  }

  /** How a scan of `x` relates to a scan of `x` with more behind it. */
  lemma {:induction false} ScanSplit(x: seq<byte>, y: seq<byte>)
    ensures var a := Scan(x);
            Scan(x + y) ==
            if a.halt.Starved? then
              var c := Scan(a.rest + y); Scanned(a.items + c.items, c.rest, c.halt)
            else
              Scanned(a.items, a.rest + y, a.halt)
    decreases |x|
  {
    HeadKept(x, y);
    if HeadOf(x).Ready? {
      var i := HeadOf(x).item;
      var n := |ItemBytes(i)|;
      assert (x + y)[n..] == x[n..] + y;
      ScanSplit(x[n..], y);
      if i.Frame? && Scan(x[n..]).halt.Starved? {
        Assoc([i], Scan(x[n..]).items, Scan(Scan(x[n..]).rest + y).items);
      }
    } else {
      assert [] + Scan(x + y).items == Scan(x + y).items;
    }
  }

  // ---------- Feeding a stream in chunks ----------

  function Joined(chunks: seq<seq<byte>>): seq<byte> {
    if chunks == [] then [] else chunks[0] + Joined(chunks[1..])
  }

  datatype Fed = Fed(parser: Parser, hung: bool)

  /** Receive each chunk and parse after it; a call that never returns ends the feeding. */
  function Feed(p: Parser, chunks: seq<seq<byte>>): Fed
    decreases |chunks|
  {
    if chunks == [] then Fed(p, false)
    else
      var q := p.(request := p.request + chunks[0]);
      if HaltOf(q).Spinning? then Fed(ParsedTo(q), true) else Feed(ParsedTo(q), chunks[1..])
  }

  /** What the rest of the session can tell: the queue, the bytes kept, and whether it is stuck. */
  datatype View = View(messages: seq<Message>, pending: seq<byte>, hung: bool)

  function Seen(f: Fed): View {
    View(f.parser.messages, Pending(f.parser), f.hung)
  }

  /**
   * Nothing more could be parsed out of the stream by calling the parser again, and no byte of it
   * stands behind a zero-length header.
   */
  predicate Quiet(sc: Scanned) {
    match sc.halt
    case Starved => true
    case Oversize => HeadOf(sc.rest).NeedMore?
    case Spinning => |sc.rest| == HEADER_SIZE
  }

  lemma FeedOne(p: Parser, chunk: seq<byte>, more: seq<seq<byte>>)
    requires Shape(p)
    ensures var sc := Scan(Pending(p) + chunk);
            var q := Resting(p.messages + FramesOf(sc.items), sc.rest, sc.halt);
            && Feed(p, [chunk] + more) == (if sc.halt.Spinning? then Fed(q, true) else Feed(q, more))
            && Shape(q) && Pending(q) == sc.rest
  {
    var r := p.(request := p.request + chunk);
    assert Pending(r) == Pending(p) + chunk;
    assert ([chunk] + more)[1..] == more;
    var sc := Scan(Pending(p) + chunk);
    RestingHolds(p.messages + FramesOf(sc.items), sc.rest, sc.halt);
  }

  lemma {:induction false} FeedQuiet(p: Parser, chunks: seq<seq<byte>>)
    requires Shape(p) && HeadOf(Pending(p)).NeedMore?
    requires Quiet(Scan(Pending(p) + Joined(chunks)))
    ensures var sc := Scan(Pending(p) + Joined(chunks));
            Seen(Feed(p, chunks)) == View(p.messages + FramesOf(sc.items), sc.rest, sc.halt.Spinning?)
    decreases |chunks|
  {
    if chunks == [] {
      assert Pending(p) + [] == Pending(p);
      assert p.messages + [] == p.messages;
    } else {
      var c, more := chunks[0], chunks[1..];
      var x, y := Pending(p) + c, Joined(more);
      assert chunks == [c] + more;
      FeedOne(p, c, more);
      Assoc(Pending(p), c, y);
      ScanSplit(x, y);
      ScanConserves(x);
      var a := Scan(x);
      var q := Resting(p.messages + FramesOf(a.items), a.rest, a.halt);
      if !a.halt.Spinning? {
        HeadKept(a.rest, y);
        FeedQuiet(q, more);
        var e := Scan(a.rest + y);
        FramesAppend(a.items, e.items);
        Assoc(p.messages, FramesOf(a.items), FramesOf(e.items));
        if a.halt.Oversize? {
          assert q.messages + [] == q.messages;
        }
      } else {
        assert y == [];
        assert a.rest + y == a.rest;
      }
    }
  }

  lemma JoinedOne(stream: seq<byte>)
    ensures Joined([stream]) == stream
  {
  }

  lemma JoinedTwo(x: seq<byte>, y: seq<byte>)
    ensures Joined([x, y]) == x + y
  {
    assert [x, y][1..] == [y];
    JoinedOne(y);
  }

  lemma FeedStream(stream: seq<byte>)
    ensures var sc := Scan(stream);
            && Feed(START, [stream]) == Fed(Resting(FramesOf(sc.items), sc.rest, sc.halt), sc.halt.Spinning?)
            && Seen(Feed(START, [stream])) == View(FramesOf(sc.items), sc.rest, sc.halt.Spinning?)
  {
    FeedOne(START, stream, []);
    assert Pending(START) + stream == stream && [stream] + [] == [stream];
    assert START.messages + FramesOf(Scan(stream).items) == FramesOf(Scan(stream).items);
  }

  /** A stream whose scan stops at an oversize header, up to and with that header. */
  lemma {:induction false} ScanToSkip(b: seq<byte>)
    requires Scan(b).halt.Oversize?
    ensures var sc := Scan(b);
            && 0 < |b| - |sc.rest|
            && b == b[..|b| - |sc.rest|] + sc.rest
            && Scan(b[..|b| - |sc.rest|]) == Scanned(sc.items, [], Oversize)
    decreases |b|
  {
    var i, rest := HeadOf(b).item, Scan(b).rest;
    var n := |ItemBytes(i)|;
    HeadIsPrefix(b);
    if i.Skipped? {
      ScanOfSkip(i);
      assert b[..n] == ItemBytes(i);
    } else {
      ScanToSkip(b[n..]);
      var front := b[n..][..|b| - n - |rest|];
      ScanFrame(i.message, front);
      assert b[..|b| - |rest|] == ItemBytes(i) + front;
      Assoc(ItemBytes(i), front, rest);
    }
  }

  lemma ScanOfSkip(i: Item)
    requires ItemOk(i) && i.Skipped?
    ensures Scan(ItemBytes(i)) == Scanned([i], [], Oversize)
  {
    HeadOfItem(i, []);
    assert ItemBytes(i) + [] == ItemBytes(i);
  }

  /** Bytes with something at their front to parse do not all stay pending, or hang the parser. */
  lemma {:induction false} NewsMovesOn(p: Parser, y: seq<byte>)
    requires Shape(p) && Pending(p) == [] && !HeadOf(y).NeedMore?
    ensures var f := Feed(p, [y]); f.hung || |Pending(f.parser)| < |y|
  {
    assert Pending(p) + y == y && [y] + [] == [y];
    FeedOne(p, y, []);
    ScanShrinks(y);
  }

  lemma {:induction false} FeedTwo(x: seq<byte>, y: seq<byte>)
    requires !Scan(x).halt.Spinning?
    ensures var sc := Scan(x); var q := Resting(FramesOf(sc.items), sc.rest, sc.halt);
            Feed(START, [x, y]) == Feed(q, [y]) && Shape(q) && Pending(q) == sc.rest
  {
    FeedOne(START, x, [y]);
    hide Scan, Feed, FramesOf, Resting, Shape;
    assert Pending(START) + x == x && [x] + [y] == [x, y];
    assert START.messages + FramesOf(Scan(x).items) == FramesOf(Scan(x).items);
  }

  lemma {:induction false} ParsedBehindSkip(stream: seq<byte>, x: seq<byte>, y: seq<byte>)
    requires Scan(stream).halt.Oversize? && !HeadOf(Scan(stream).rest).NeedMore?
    requires y == Scan(stream).rest && |y| <= |stream| && x == stream[..|stream| - |y|]
    ensures Seen(Feed(START, [x, y])) != Seen(Feed(START, [stream]))
  {
    hide Scan, Feed, HeadOf, FramesOf, Resting, Shape, Pending;
    ScanToSkip(stream);
    FeedStream(stream);
    FeedTwo(x, y);
    NewsMovesOn(Resting(FramesOf(Scan(x).items), Scan(x).rest, Scan(x).halt), y);
  }

  lemma {:induction false} ScanShrinks(b: seq<byte>)
    ensures |Scan(b).rest| <= |b|
    ensures HeadOf(b).Ready? ==> |Scan(b).rest| < |b|
    decreases |b|
  {
    if HeadOf(b).Ready? {
      ScanShrinks(b[|ItemBytes(HeadOf(b).item)|..]);
    }
  }

  lemma PrefixOfConcat(x: seq<byte>, y: seq<byte>, n: nat)
    requires n <= |y|
    ensures (x + y)[..|x| + n] == x + y[..n]
  {
  }

  lemma {:induction false} ZeroHeaderSpins(rest: seq<byte>)
    requires HeadOf(rest).ZeroLength? && |rest| >= HEADER_SIZE
    ensures Scan(rest[..HEADER_SIZE]) == Scanned([], rest[..HEADER_SIZE], Spinning)
  {
    var z := rest[..HEADER_SIZE];
    assert z[1..HEADER_SIZE] == rest[1..HEADER_SIZE];
    assert HeadOf(z).ZeroLength?;
  }

  lemma {:induction false} ScanToZeroHeader(stream: seq<byte>, k: nat)
    requires Scan(stream).halt.Spinning? && |Scan(stream).rest| > HEADER_SIZE
    requires k == |stream| - |Scan(stream).rest| + HEADER_SIZE
    ensures k < |stream|
    ensures var sc := Scan(stream); Scan(stream[..k]) == Scanned(sc.items, sc.rest[..HEADER_SIZE], Spinning)
  {
    var sc := Scan(stream);
    var z := sc.rest[..HEADER_SIZE];
    ScanConserves(stream);
    ScanStopsAtSkip(stream);
    ZeroHeaderSpins(sc.rest);
    hide Scan, HeadOf, Wire;
    PrefixOfConcat(Wire(sc.items), sc.rest, HEADER_SIZE);
    assert stream[..k] == Wire(sc.items) + z;
    ScanWire(sc.items, z);
    assert sc.items + [] == sc.items;
  }

  lemma {:induction false} HangEarly(stream: seq<byte>, x: seq<byte>, y: seq<byte>)
    requires Scan(stream).halt.Spinning? && |Scan(stream).rest| > HEADER_SIZE
    requires stream == x + y && |x| == |stream| - |Scan(stream).rest| + HEADER_SIZE
    ensures Seen(Feed(START, [x, y])) != Seen(Feed(START, [stream]))
  {
    ScanToZeroHeader(stream, |x|);
    assert stream[..|x|] == x;
    FeedStream(stream);
    assert [x] + [y] == [x, y] && Pending(START) + x == x;
    FeedOne(START, x, [y]);
  }

  lemma {:induction false} NoisyHalt(stream: seq<byte>)
    requires !Quiet(Scan(stream))
    ensures var sc := Scan(stream);
            || (sc.halt.Oversize? && !HeadOf(sc.rest).NeedMore?)
            || (sc.halt.Spinning? && HEADER_SIZE < |sc.rest| <= |stream|)
  {
    ScanConserves(stream);
    ScanShrinks(stream);
    hide Scan, Wire;
  }

  /** Where to cut a stream that is not `Quiet` for the parse to differ. */
  lemma {:induction false} NoisyCut(stream: seq<byte>) returns (x: seq<byte>, y: seq<byte>)
    requires !Quiet(Scan(stream))
    ensures stream == x + y && x != [] && y != []
    ensures Seen(Feed(START, [x, y])) != Seen(Feed(START, [stream]))
  {
    NoisyHalt(stream);
    var rest := Scan(stream).rest;
    assert rest != [];
    if Scan(stream).halt.Oversize? {
      ScanToSkip(stream);
      hide *;
      x, y := stream[..|stream| - |rest|], rest;
      ParsedBehindSkip(stream, x, y);
    } else {
      hide *;
      var k := |stream| - |rest| + HEADER_SIZE;
      x, y := stream[..k], stream[k..];
      HangEarly(stream, x, y);
    }
  }

  predicate NoneEmpty(chunks: seq<seq<byte>>) {
    forall k :: 0 <= k < |chunks| ==> chunks[k] != []
  }

  /** A stream that is not `Quiet` has a partition whose parse differs from the parse in one piece. */
  lemma {:induction false} NoisyPartition(stream: seq<byte>) returns (chunks: seq<seq<byte>>)
    requires !Quiet(Scan(stream))
    ensures Joined(chunks) == stream && NoneEmpty(chunks)
    ensures Seen(Feed(START, chunks)) != Seen(Feed(START, [stream]))
  {
    var x, y := NoisyCut(stream);
    chunks := [x, y];
    JoinedTwo(x, y);
    assert NoneEmpty(chunks);
    hide *;
  }

  lemma {:induction false} QuietPartition(stream: seq<byte>, chunks: seq<seq<byte>>)
    requires Quiet(Scan(stream)) && Joined(chunks) == stream
    ensures Seen(Feed(START, chunks)) == Seen(Feed(START, [stream]))
  {
    assert Pending(START) + stream == stream;
    assert START.messages + FramesOf(Scan(stream).items) == FramesOf(Scan(stream).items);
    FeedQuiet(START, chunks);
    FeedStream(stream);
  }

  /**
   * Parsing after every chunk gives the same queue and the same residue as parsing once at the
   * end, for every way to cut the stream, exactly when the stream is `Quiet`; and empty chunks are
   * not needed to tell.
   */
  lemma ChunkIndependenceExactlyWhen(stream: seq<byte>)
    ensures (forall chunks :: Joined(chunks) == stream ==> Seen(Feed(START, chunks)) == Seen(Feed(START, [stream])))
       <==> Quiet(Scan(stream))
    ensures (forall chunks :: Joined(chunks) == stream && NoneEmpty(chunks) ==>
               Seen(Feed(START, chunks)) == Seen(Feed(START, [stream])))
       <==> Quiet(Scan(stream))
  {
    if Quiet(Scan(stream)) {
      forall chunks | Joined(chunks) == stream
        ensures Seen(Feed(START, chunks)) == Seen(Feed(START, [stream]))
      {
        QuietPartition(stream, chunks);
      }
    } else {
      var chunks := NoisyPartition(stream);
    }
    hide *;
  }

  lemma {:induction false} ScanEncoded(ms: seq<Outgoing>)
    requires Sendable(ms)
    ensures Scan(EncodeAll(ms)) == Scanned(ItemsFor(ms), [], Starved) && FramesOf(ItemsFor(ms)) == MessagesFor(ms)
  {
    var items := ItemsFor(ms);
    EncodeAllIsWire(ms);
    ItemsOkWhen(ms);
    ScanWire(items, []);
    assert Scan([]) == Scanned([], [], Starved);
    hide Scan, Wire, FramesOf, EncodeAll, ItemsFor;
    assert Wire(items) + [] == Wire(items) && items + [] == items;
  }

  lemma NothingHeld(p: Parser)
    requires Pending(p) == []
    ensures p == Parser(EMPTY_MESSAGE, p.messages, [])
  {
    var m := p.message;
    assert |m.typeVec| == 0 && |m.sizeVec| == 0 && |m.bytesVec| == 0 && |p.request| == 0;
  }

  /**
   * Any list of messages with bodies of one byte up to the limit, encoded, cut into chunks at
   * arbitrary places and parsed after each chunk, comes back in order, with nothing left over.
   */
  lemma {:induction false} RoundTripInChunks(ms: seq<Outgoing>, chunks: seq<seq<byte>>)
    requires Sendable(ms)
    requires Joined(chunks) == EncodeAll(ms)
    ensures Feed(START, chunks) == Fed(Parser(EMPTY_MESSAGE, MessagesFor(ms), []), false)
  {
    ScanEncoded(ms);
    QuietPartition(EncodeAll(ms), chunks);
    FeedStream(EncodeAll(ms));
    hide Scan, Feed, FramesOf, Joined, EncodeAll, ItemsFor;
    NothingHeld(Feed(START, chunks).parser);
  }
}
