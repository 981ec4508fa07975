/**
 * The client: how it lays out its messages, the machine that its system calls drive, and the class
 * whose loops run that machine.
 *
 * The client's socket blocks, so a script of answers that runs out, like EAGAIN on it, stands for
 * an error: the connection is given up.
 */
module Clients {
  import opened Bytes
  import opened Framing
  import opened Parsing
  import opened Auth
  import opened Sessions

  // ---------- Messages ----------

  function AuthRequest(hostname: seq<byte>, username: seq<byte>): seq<byte> {
    Encode(TYPE_AUTH, AuthBody(hostname, username))
  }

  function ImageFrame(image: seq<byte>): (f: seq<byte>)
    ensures |f| == HEADER_SIZE + |image|
  {
    Encode(TYPE_IMAGE, image)
  }

  /** Everything a client has to say: its request, then its images. */
  function Outbox(hostname: seq<byte>, username: seq<byte>, images: seq<seq<byte>>): seq<Outgoing> {
    [Outgoing(TYPE_AUTH, AuthBody(hostname, username))] +
    seq(|images|, k requires 0 <= k < |images| => Outgoing(TYPE_IMAGE, images[k]))
  }

  /** An authentication request of names that fit their length fields is never oversize, and never empty. */
  lemma AuthRequestSize(hostname: seq<byte>, username: seq<byte>)
    requires |hostname| < 0x1_0000 && |username| < 0x1_0000
    ensures 1 <= |AuthBody(hostname, username)| <= 131074 <= MAX_MESSAGE_SIZE
    ensures HeadOf(AuthRequest(hostname, username)) ==
            Ready(Frame(MessageOf(TYPE_AUTH, AuthBody(hostname, username))))
  {
    assert 1 <= |AuthBody(hostname, username)| <= 131074;
    hide AuthBody, HeadOf;
    EncodedHead(TYPE_AUTH, AuthBody(hostname, username));
  }

  /**
   * The request reaches the server's parser as one message whose body carries the two names:
   * it is accepted exactly when both are valid, and then exactly these names are stored.
   */
  lemma AuthenticationRoundTrip(hostname: seq<byte>, username: seq<byte>, h0: seq<byte>, u0: seq<byte>)
    requires |hostname| < 0x1_0000 && |username| < 0x1_0000
    ensures var sc := Scan(AuthRequest(hostname, username));
            && sc.rest == [] && sc.halt.Starved?
            && FramesOf(sc.items) == [MessageOf(TYPE_AUTH, AuthBody(hostname, username))]
            && var r := ReadAuth(FramesOf(sc.items)[0].bytesVec, h0, u0);
               && (r.ok <==> ValidName(hostname) && ValidName(username))
               && (r.ok ==> r == AuthRead(true, hostname, username, []))
  {
    AuthRequestSize(hostname, username);
    var m := MessageOf(TYPE_AUTH, AuthBody(hostname, username));
    assert ItemBytes(Frame(m)) + [] == AuthRequest(hostname, username);
    ScanFrame(m, []);
    FramesOfOne(Frame(m));
    assert [Frame(m)] + [] == [Frame(m)];
    ClientRequestVerdict(hostname, username, h0, u0);
  }

  /**
   * The size limits are needed: behind any well-formed stream, the frame of an empty image is a
   * zero-length header that the server's parser never gets past.
   */
  lemma EmptyImageSpins(ms: seq<Outgoing>)
    requires Sendable(ms)
    ensures Scan(EncodeAll(ms + [Outgoing(TYPE_IMAGE, [])])).halt.Spinning?
  {
    var last := [Outgoing(TYPE_IMAGE, [])];
    EncodeAllAppend(ms, last);
    EncodeAllIsWire(ms);
    ItemsOkWhen(ms);
    ScanWire(ItemsFor(ms), EncodeAll(last));
    assert EncodeAll(last) == ImageFrame([]) + EncodeAll(last[1..]) == ImageFrame([]);
    assert ImageFrame([])[1..HEADER_SIZE] == Be32(0);
  }

  // ---------- The machine ----------

  /** `Requesting` and `Uploading` carry how many bytes of the message have been sent. */
  datatype Phase =
    | Requesting(sent: nat)
    | AwaitingVerdict
    | Idle
    | Uploading(image: seq<byte>, sent: nat)
    | Ended

  datatype ClientState = ClientState(
    hostname: seq<byte>,
    username: seq<byte>,
    phase: Phase,
    written: seq<byte>,
    images: seq<seq<byte>>,
    verdict: seq<byte>
  )

  function Begin(hostname: seq<byte>, username: seq<byte>): ClientState {
    ClientState(hostname, username, Requesting(0), [], [], [])
  }

  /** What a system call, the screen grabber or the stop flag can tell the client. */
  datatype Input =
    | Accepted(count: nat)
    | Interrupted
    | Broken
    | Verdict(reply: byte)
    | Captured(image: seq<byte>)
    | CaptureFailed
    | Stopped

  /** The message that is being sent. */
  function Payload(c: ClientState): seq<byte>
    requires c.phase.Requesting? || c.phase.Uploading?
  {
    if c.phase.Requesting? then AuthRequest(c.hostname, c.username) else ImageFrame(c.phase.image)
  }

  predicate Enabled(c: ClientState, i: Input) {
    match c.phase
    case Requesting(sent) => i.Interrupted? || i.Broken? || (i.Accepted? && 0 < i.count <= |Payload(c)| - sent)
    case Uploading(_, sent) => i.Interrupted? || i.Broken? || (i.Accepted? && 0 < i.count <= |Payload(c)| - sent)
    case AwaitingVerdict => i.Interrupted? || i.Broken? || i.Verdict?
    case Idle => i.Captured? || i.CaptureFailed? || i.Stopped?
    case Ended => false
  }

  function React(c: ClientState, i: Input): ClientState
    requires Enabled(c, i)
  {
    match i
    case Accepted(n) =>
      var sent := c.phase.sent;
      c.(written := c.written + Payload(c)[sent..sent + n],
         phase := if sent + n < |Payload(c)| then c.phase.(sent := sent + n)
                  else if c.phase.Requesting? then AwaitingVerdict else Idle)
    case Interrupted => c
    case Broken => c.(phase := Ended)
    case Verdict(b) => c.(verdict := [b], phase := if b == YES then Idle else Ended)
    case Captured(image) => c.(images := c.images + [image], phase := Uploading(image, 0))
    case CaptureFailed => c
    case Stopped => c.(phase := Ended)
  }

  predicate Playable(c: ClientState, inputs: seq<Input>)
    decreases |inputs|
  {
    inputs == [] || (Enabled(c, inputs[0]) && Playable(React(c, inputs[0]), inputs[1..]))
  }

  function Play(c: ClientState, inputs: seq<Input>): ClientState
    requires Playable(c, inputs)
    decreases |inputs|
  {
    if inputs == [] then c else Play(React(c, inputs[0]), inputs[1..])
  }

  lemma {:induction false} PlayNext(c: ClientState, inputs: seq<Input>, i: Input)
    requires Playable(c, inputs) && Enabled(Play(c, inputs), i)
    ensures Playable(c, inputs + [i]) && Play(c, inputs + [i]) == React(Play(c, inputs), i)
    decreases |inputs|
  {
    hide Enabled, React;
    if inputs == [] {
      assert [] + [i] == [i] && [i][1..] == [];
    } else {
      assert (inputs + [i])[0] == inputs[0] && (inputs + [i])[1..] == inputs[1..] + [i];
      PlayNext(React(c, inputs[0]), inputs[1..], i);
    }
  }

  // ---------- What the machine keeps ----------

  /** The whole of what a client has to say with these images, on the wire. */
  function Stream(hostname: seq<byte>, username: seq<byte>, images: seq<seq<byte>>): seq<byte> {
    EncodeAll(Outbox(hostname, username, images))
  }

  lemma {:induction false} StreamNext(
    hostname: seq<byte>, username: seq<byte>, images: seq<seq<byte>>, image: seq<byte>)
    ensures Stream(hostname, username, images + [image]) == Stream(hostname, username, images) + ImageFrame(image)
    ensures Stream(hostname, username, []) == AuthRequest(hostname, username)
  {
    var next := Outgoing(TYPE_IMAGE, image);
    assert Outbox(hostname, username, images + [image]) == Outbox(hostname, username, images) + [next];
    EncodeAllAppend(Outbox(hostname, username, images), [next]);
    assert EncodeAll([next]) == ImageFrame(image) + EncodeAll([next][1..]);
    assert Outbox(hostname, username, []) == [Outgoing(TYPE_AUTH, AuthBody(hostname, username))];
    assert EncodeAll(Outbox(hostname, username, [])[1..]) == [];
  }

  /** The stream of every image but the last; nothing when there is none. */
  function Settled(c: ClientState): seq<byte> {
    if c.images == [] then [] else Stream(c.hostname, c.username, c.images[..|c.images| - 1])
  }

  predicate ClientInv(c: ClientState) {
    && Settled(c) <= c.written <= Stream(c.hostname, c.username, c.images)
    && (c.images != [] ==> c.verdict == [YES])
    && |c.verdict| <= 1
    && match c.phase
       case Requesting(sent) =>
         sent < |Payload(c)| && c.images == [] && c.verdict == [] && c.written == Payload(c)[..sent]
       case AwaitingVerdict =>
         c.images == [] && c.verdict == [] && c.written == Stream(c.hostname, c.username, [])
       case Idle =>
         c.verdict == [YES] && c.written == Stream(c.hostname, c.username, c.images)
       case Uploading(image, sent) =>
         && sent < |Payload(c)|
         && c.images != [] && c.images[|c.images| - 1] == image
         && c.written == Settled(c) + Payload(c)[..sent]
       case Ended => true
  }

  lemma BeginHolds(hostname: seq<byte>, username: seq<byte>)
    ensures ClientInv(Begin(hostname, username))
  {
  }

  lemma TakeMore(x: seq<byte>, y: seq<byte>, a: nat, b: nat)
    requires a <= b <= |y|
    ensures (x + y[..a]) + y[a..b] == x + y[..b]
  {
  }

  lemma RequestingKeeps(c: ClientState, n: nat)
    requires ClientInv(c) && Enabled(c, Accepted(n)) && c.phase.Requesting?
    ensures ClientInv(React(c, Accepted(n)))
  {
    var sent := c.phase.sent;
    var whole := Payload(c);
    StreamNext(c.hostname, c.username, [], []);
    hide AuthRequest, Stream;
    assert whole[..sent] + whole[sent..sent + n] == whole[..sent + n];
    assert whole[..|whole|] == whole;
  }

  lemma UploadingKeeps(c: ClientState, n: nat)
    requires ClientInv(c) && Enabled(c, Accepted(n)) && c.phase.Uploading?
    ensures ClientInv(React(c, Accepted(n)))
  {
    var sent := c.phase.sent;
    var whole := Payload(c);
    StreamNext(c.hostname, c.username, c.images[..|c.images| - 1], c.phase.image);
    assert c.images == c.images[..|c.images| - 1] + [c.phase.image];
    hide AuthRequest, ImageFrame, Stream;
    TakeMore(Settled(c), whole, sent, sent + n);
    assert whole[..|whole|] == whole;
  }

  lemma CaptureKeeps(c: ClientState, image: seq<byte>)
    requires ClientInv(c) && Enabled(c, Captured(image))
    ensures ClientInv(React(c, Captured(image)))
  {
    var d := React(c, Captured(image));
    StreamNext(c.hostname, c.username, c.images, image);
    hide AuthRequest, ImageFrame, Stream;
    assert d.images[..|d.images| - 1] == c.images;
    assert Settled(d) == c.written && Payload(d)[..0] == [] && Settled(d) + [] == Settled(d);
  }

  lemma VerdictKeeps(c: ClientState, reply: byte)
    requires ClientInv(c) && Enabled(c, Verdict(reply))
    ensures ClientInv(React(c, Verdict(reply)))
  {
    hide AuthRequest, ImageFrame, Stream;
  }

  lemma EndKeeps(c: ClientState, i: Input)
    requires ClientInv(c) && Enabled(c, i) && (i.Broken? || i.Stopped?)
    ensures ClientInv(React(c, i))
  {
    hide AuthRequest, ImageFrame, Stream;
  }

  lemma {:induction false} ReactKeeps(c: ClientState, i: Input)
    requires ClientInv(c) && Enabled(c, i)
    ensures ClientInv(React(c, i))
  {
    if i.Accepted? {
      assert c.phase.Requesting? || c.phase.Uploading?;
    }
    hide ClientInv;
    match i
    case Accepted(n) =>
      if c.phase.Requesting? {
        RequestingKeeps(c, n);
      } else {
        UploadingKeeps(c, n);
      }
    case Captured(image) => CaptureKeeps(c, image);
    case Verdict(reply) => VerdictKeeps(c, reply);
    case Broken => EndKeeps(c, i);
    case Stopped => EndKeeps(c, i);
    case _ =>
  }

  lemma {:induction false} PlayKeeps(c: ClientState, inputs: seq<Input>)
    requires ClientInv(c) && Playable(c, inputs)
    ensures ClientInv(Play(c, inputs))
    decreases |inputs|
  {
    hide ClientInv, Enabled, React;
    if inputs != [] {
      ReactKeeps(c, inputs[0]);
      PlayKeeps(React(c, inputs[0]), inputs[1..]);
    }
  }

  /**
   * On every run of the client the bytes written are a prefix of its request followed by the frames
   * of its images; only the last frame can be cut short; and no byte is written behind the request
   * unless the server has said yes.
   */
  lemma ClientTrace(hostname: seq<byte>, username: seq<byte>, inputs: seq<Input>)
    requires Playable(Begin(hostname, username), inputs)
    ensures var c := Play(Begin(hostname, username), inputs);
            && Settled(c) <= c.written <= Stream(hostname, username, c.images)
            && (|c.written| > |AuthRequest(hostname, username)| || c.images != [] ==> c.verdict == [YES])
  {
    BeginHolds(hostname, username);
    PlayKeeps(Begin(hostname, username), inputs);
    PlayNamesKept(Begin(hostname, username), inputs);
    StreamNext(hostname, username, [], []);
  }

  lemma {:induction false} PlayNamesKept(c: ClientState, inputs: seq<Input>)
    requires Playable(c, inputs)
    ensures Play(c, inputs).hostname == c.hostname && Play(c, inputs).username == c.username
    decreases |inputs|
  {
    if inputs != [] {
      PlayNamesKept(React(c, inputs[0]), inputs[1..]);
    }
  }

  // ---------- What the scripts determine ----------

  /** What `SendAll` gets written, the answers it leaves, and whether it returns. */
  datatype Pushed = Pushed(sent: seq<byte>, answers: seq<SendAnswer>, ok: bool)

  function Push(data: seq<byte>, answers: seq<SendAnswer>): Pushed
    decreases |answers|
  {
    if data == [] then Pushed([], answers, true)
    else if answers == [] then Pushed([], [], false)
    else
      match answers[0]
      case Room(k) =>
        var n := Min(k, |data|);
        if n == 0 then Pushed([], answers[1..], false)
        else var p := Push(data[n..], answers[1..]); Pushed(data[..n] + p.sent, p.answers, p.ok)
      case SendInterrupted => Push(data, answers[1..])
      case _ => Pushed([], answers[1..], false)
  }

  /** The bytes a script of `recv` yields before anything fails. */
  function Inbound(answers: seq<RecvAnswer>): seq<byte> {
    Drain(answers).data
  }

  /** One round of the sending loop: a capture, or a grabber failure. */
  datatype Grab = Image(image: seq<byte>) | NoImage

  function Uploads(sends: seq<SendAnswer>, grabs: seq<Grab>): seq<byte>
    decreases |grabs|
  {
    if grabs == [] then []
    else
      match grabs[0]
      case NoImage => Uploads(sends, grabs[1..])
      case Image(image) =>
        var p := Push(ImageFrame(image), sends);
        p.sent + if p.ok then Uploads(p.answers, grabs[1..]) else []
  }

  /** All the bytes of a run. */
  function Transcript(hostname: seq<byte>, username: seq<byte>,
                      sends: seq<SendAnswer>, recvs: seq<RecvAnswer>, grabs: seq<Grab>): seq<byte>
  {
    var p := Push(AuthRequest(hostname, username), sends);
    p.sent +
    if p.ok && Inbound(recvs) != [] && Inbound(recvs)[0] == YES then Uploads(p.answers, grabs) else []
  }

  lemma {:induction false} PushSplits(data: seq<byte>, answers: seq<SendAnswer>)
    ensures var p := Push(data, answers); p.sent <= data && (p.ok <==> p.sent == data)
    decreases |answers|
  {
    if data != [] && answers != [] {
      match answers[0]
      case Room(k) =>
        var n := Min(k, |data|);
        if n > 0 {
          PushSplits(data[n..], answers[1..]);
          assert data == data[..n] + data[n..];
        }
      case SendInterrupted => PushSplits(data, answers[1..]);
      case _ =>
    }
  }

  /** How often `send` takes something. */
  function Takes(answers: seq<SendAnswer>): nat {
    if answers == [] then 0 else (if answers[0].Room? then 1 else 0) + Takes(answers[1..])
  }

  /** A socket that never fails, and takes something at least `n` times. */
  predicate Reliable(answers: seq<SendAnswer>, n: nat) {
    && Takes(answers) >= n
    && forall k :: 0 <= k < |answers| ==> answers[k].SendInterrupted? || (answers[k].Room? && answers[k].k > 0)
  }

  lemma {:induction false} PushWhole(data: seq<byte>, answers: seq<SendAnswer>, spare: nat)
    requires Reliable(answers, |data| + spare)
    ensures var p := Push(data, answers);
            p.ok && p.sent == data && Reliable(p.answers, spare)
    decreases |answers|
  {
    if data != [] {
      var more := answers[1..];
      if answers[0].Room? {
        var n := Min(answers[0].k, |data|);
        assert Reliable(more, |data[n..]| + spare);
        PushWhole(data[n..], more, spare);
      } else {
        assert Reliable(more, |data| + spare);
        PushWhole(data, more, spare);
      }
    }
  }

  /** The images captured, as messages to send. */
  function Pictures(grabs: seq<Grab>): seq<Outgoing> {
    if grabs == [] then []
    else (if grabs[0].Image? then [Outgoing(TYPE_IMAGE, grabs[0].image)] else []) + Pictures(grabs[1..])
  }

  lemma {:induction false} UploadsWhole(sends: seq<SendAnswer>, grabs: seq<Grab>)
    requires Reliable(sends, |EncodeAll(Pictures(grabs))|)
    ensures Uploads(sends, grabs) == EncodeAll(Pictures(grabs))
    decreases |grabs|
  {
    if grabs != [] {
      var more := Pictures(grabs[1..]);
      if grabs[0].Image? {
        var frame := ImageFrame(grabs[0].image);
        assert Pictures(grabs)[1..] == more && EncodeAll(Pictures(grabs)) == frame + EncodeAll(more);
        PushWhole(frame, sends, |EncodeAll(more)|);
        UploadsWhole(Push(frame, sends).answers, grabs[1..]);
      } else {
        assert Pictures(grabs) == more;
        UploadsWhole(sends, grabs[1..]);
      }
    }
  }

  /**
   * On a connection that does not fail, with a yes from the server, a run writes the request and
   * then the frame of every image captured, in order and complete; failed captures write nothing.
   */
  lemma TranscriptWhole(hostname: seq<byte>, username: seq<byte>,
                        sends: seq<SendAnswer>, recvs: seq<RecvAnswer>, grabs: seq<Grab>)
    requires Reliable(sends, |AuthRequest(hostname, username)| + |EncodeAll(Pictures(grabs))|)
    requires Inbound(recvs) != [] && Inbound(recvs)[0] == YES
    ensures Transcript(hostname, username, sends, recvs, grabs) ==
            AuthRequest(hostname, username) + EncodeAll(Pictures(grabs))
  {
    hide AuthRequest;
    PushWhole(AuthRequest(hostname, username), sends, |EncodeAll(Pictures(grabs))|);
    UploadsWhole(Push(AuthRequest(hostname, username), sends).answers, grabs);
  }

  /** The state in which `k` bytes of the message that `start` is about to send are sent. */
  function Sending(start: ClientState, k: nat): ClientState
    requires (start.phase.Requesting? || start.phase.Uploading?) && k <= |Payload(start)|
  {
    start.(written := start.written + Payload(start)[..k],
           phase := if k < |Payload(start)| then start.phase.(sent := k)
                    else if start.phase.Requesting? then AwaitingVerdict else Idle)
  }

  lemma SendingReacts(start: ClientState, k: nat)
    requires (start.phase.Requesting? || start.phase.Uploading?) && k < |Payload(start)|
    ensures var c := Sending(start, k);
            && Enabled(c, Interrupted) && React(c, Interrupted) == c
            && Enabled(c, Broken)
            && React(c, Broken) == start.(written := start.written + Payload(start)[..k], phase := Ended)
            && forall n: nat :: 0 < n <= |Payload(start)| - k ==>
                 Enabled(c, Accepted(n)) && React(c, Accepted(n)) == Sending(start, k + n)
  {
    hide AuthRequest, ImageFrame;
    var c := Sending(start, k);
    forall n: nat | 0 < n <= |Payload(start)| - k
      ensures Enabled(c, Accepted(n)) && React(c, Accepted(n)) == Sending(start, k + n)
    {
      TakeMore(start.written, Payload(start), k, k + n);
    }
  }

  /** With `k` bytes of `data` out and these answers to come, the whole push comes to `whole`. */
  predicate PushLeft(data: seq<byte>, k: nat, answers: seq<SendAnswer>, whole: Pushed)
    requires k <= |data|
  {
    var p := Push(data[k..], answers);
    whole.sent == data[..k] + p.sent && whole.answers == p.answers && whole.ok == p.ok
  }

  lemma PushStarts(data: seq<byte>, answers: seq<SendAnswer>)
    ensures PushLeft(data, 0, answers, Push(data, answers))
  {
  }

  lemma PushEnds(data: seq<byte>, answers: seq<SendAnswer>, whole: Pushed)
    requires PushLeft(data, |data|, answers, whole)
    ensures whole == Pushed(data, answers, true)
  {
  }

  /** One answer of `send`. */
  lemma PushUnfolds(data: seq<byte>, k: nat, answers: seq<SendAnswer>, whole: Pushed)
    requires k < |data| && PushLeft(data, k, answers, whole)
    ensures var more := if answers == [] then [] else answers[1..];
            if answers == [] || !(answers[0].Room? || answers[0].SendInterrupted?) || answers[0] == Room(0) then
              whole == Pushed(data[..k], more, false)
            else if answers[0].SendInterrupted? then
              PushLeft(data, k, more, whole)
            else
              PushLeft(data, k + Min(answers[0].k, |data| - k), more, whole)
  {
    assert data[..k] + [] == data[..k];
    if answers != [] && answers[0].Room? {
      var m := Min(answers[0].k, |data| - k);
      assert data[k..][m..] == data[k + m..];
      assert data[..k] + data[k..][..m] == data[..k + m];
      if m > 0 {
        Assoc(data[..k], data[k..][..m], Push(data[k + m..], answers[1..]).sent);
      }
    }
  }

  /** `SendAll` gets out what a flush of the same bytes would, and returns exactly if that is all. */
  lemma {:induction false} PushIsFlush(data: seq<byte>, answers: seq<SendAnswer>)
    ensures var p, f := Push(data, answers), Flush(data, answers);
            p.sent == f.sent && (p.ok <==> f.left == [])
    decreases |answers|
  {
    if data != [] && answers != [] {
      match answers[0]
      case Room(k) =>
        var n := Min(k, |data|);
        if n > 0 {
          PushIsFlush(data[n..], answers[1..]);
        }
      case SendInterrupted => PushIsFlush(data, answers[1..]);
      case _ =>
    }
  }

  // ---------- The class ----------

  method InsertUint8(buffer: seq<byte>, num: byte) returns (r: seq<byte>)
    ensures |r| == |buffer| + 1 && buffer <= r && r[|buffer|] == num
  {
    r := buffer + [num];
  }

  /** Whoever reads the two new bytes in network byte order gets the low 16 bits back. */
  method InsertUint16(buffer: seq<byte>, num: nat) returns (r: seq<byte>)
    ensures |r| == |buffer| + 2 && buffer <= r
    ensures U16(r[|buffer|..]) == num % 0x1_0000
  {
    var net := num % 0x1_0000;
    r := buffer + [net / 0x100, net % 0x100];
  }

  /** Two halves inserted one behind the other read as the number they are the halves of. */
  lemma HalvesInserted(buffer: seq<byte>, first: seq<byte>, r: seq<byte>, high: nat, low: nat)
    requires |first| == |buffer| + 2 && buffer <= first && |r| == |first| + 2 && first <= r
    requires U16(first[|buffer|..]) == high && U16(r[|first|..]) == low
    ensures |r| == |buffer| + 4 && buffer <= r && U32(r[|buffer|..]) == high * 0x1_0000 + low
  {
    var tail := r[|buffer|..];
    U32Halves(tail);
    assert tail[..2] == first[|buffer|..] && tail[2..] == r[|first|..];
    SameFront(tail, first[|buffer|..]);
    hide U16, U32;
  }

  lemma HalvesOf(num: nat)
    ensures var net := num % 0x1_0000_0000; var high, low := net / 0x1_0000, net % 0x1_0000;
            && high % 0x1_0000 == high && low % 0x1_0000 == low
            && high * 0x1_0000 + low == net
  {
  }

  lemma SameFront(tail: seq<byte>, half: seq<byte>)
    requires |half| == 2 && half <= tail
    ensures U16(tail) == U16(half)
  {
  }

  /** Whoever reads the four new bytes in network byte order gets the low 32 bits back. */
  method InsertUint32(buffer: seq<byte>, num: nat) returns (r: seq<byte>)
    ensures |r| == |buffer| + 4 && buffer <= r
    ensures U32(r[|buffer|..]) == num % 0x1_0000_0000
  {
    HalvesOf(num);
    hide U16, U32;
    var net := num % 0x1_0000_0000;
    var high, low := net / 0x1_0000, net % 0x1_0000;
    var first := InsertUint16(buffer, high);
    r := InsertUint16(first, low);
    HalvesInserted(buffer, first, r, high, low);
  }

  /** Bytes that read as a number are its encoding. */
  lemma Inserted(buffer: seq<byte>, r: seq<byte>, num: nat)
    requires buffer <= r
    ensures |r| == |buffer| + 2 && U16(r[|buffer|..]) == num % 0x1_0000 ==> r == buffer + Be16(num)
    ensures |r| == |buffer| + 4 && U32(r[|buffer|..]) == num % 0x1_0000_0000 ==> r == buffer + Be32(num)
  {
    var tail := r[|buffer|..];
    assert r == buffer + tail;
    if |tail| == 2 {
      Be16OfU16(tail);
      assert tail[..2] == tail;
    } else if |tail| == 4 {
      Be32OfU32(tail);
      assert tail[..4] == tail;
    }
  }

  /** The length goes in as zero and is patched once the body is there. */
  method CreateAuthenticationRequest(hostname: seq<byte>, username: seq<byte>) returns (buffer: seq<byte>)
    ensures buffer == AuthRequest(hostname, username)
  {
    buffer := InsertUint8([], TYPE_AUTH);
    buffer := InsertUint32(buffer, 0);
    ghost var header := buffer;
    buffer := InsertUint16(buffer, |hostname|);
    Inserted(header, buffer, |hostname|);
    buffer := buffer + hostname;
    ghost var first := buffer;
    buffer := InsertUint16(buffer, |username|);
    Inserted(first, buffer, |username|);
    buffer := buffer + username;
    assert buffer == header + AuthBody(hostname, username);
    var totalSize := |buffer| - 1 - 4;
    var size := Be32(totalSize);
    for k := 0 to 4
      invariant |buffer| == HEADER_SIZE + |AuthBody(hostname, username)|
      invariant buffer[..1] == [TYPE_AUTH] && buffer[1..1 + k] == size[..k]
      invariant buffer[HEADER_SIZE..] == AuthBody(hostname, username)
    {
      ghost var prior := buffer;
      buffer := buffer[1 + k := size[k]];
      assert buffer[1..1 + k] == prior[1..1 + k] && buffer[1..2 + k] == buffer[1..1 + k] + [size[k]];
      assert size[..k + 1] == size[..k] + [size[k]];
      assert buffer[HEADER_SIZE..] == prior[HEADER_SIZE..];
    }
    assert buffer == buffer[..1] + buffer[1..HEADER_SIZE] + buffer[HEADER_SIZE..];
    assert size[..4] == size;
  }

  method CreateImgMessage(image: seq<byte>) returns (buffer: seq<byte>)
    ensures buffer == ImageFrame(image)
  {
    buffer := InsertUint8([], TYPE_IMAGE);
    assert buffer == [TYPE_IMAGE];
    buffer := InsertUint32(buffer, |image|);
    Inserted([TYPE_IMAGE], buffer, |image|);
    buffer := buffer + image;
  }

  /** A buffer that took the first `n` of the bytes at hand still is the front of what comes in. */
  lemma Grown(buffer: seq<byte>, bytes: seq<byte>, n: nat, later: seq<byte>)
    requires n <= |bytes|
    ensures buffer + bytes[..n] <= buffer + (bytes + later)
    ensures n == |bytes| ==> buffer + (bytes + later) == buffer + bytes[..n] + later
  {
  }

  class Client {
    const hostname: seq<byte>
    const username: seq<byte>
    var sends: seq<SendAnswer>
    var recvs: seq<RecvAnswer>
    var grabs: seq<Grab>
    ghost var state: ClientState
    ghost var inputs: seq<Input>

    /** The client's state is one that the machine reaches. */
    ghost predicate Reached()
      reads this
    {
      && Playable(Begin(hostname, username), inputs)
      && state == Play(Begin(hostname, username), inputs)
      && state.hostname == hostname && state.username == username
    }

    constructor (hostname: seq<byte>, username: seq<byte>,
                 sends: seq<SendAnswer>, recvs: seq<RecvAnswer>, grabs: seq<Grab>)
      ensures Reached() && state == Begin(hostname, username)
      ensures this.hostname == hostname && this.username == username
      ensures this.sends == sends && this.recvs == recvs && this.grabs == grabs
    {
      this.hostname, this.username := hostname, username;
      this.sends, this.recvs, this.grabs := sends, recvs, grabs;
      state, inputs := Begin(hostname, username), [];
    }

    /** The machine takes a step. */
    ghost method Note(i: Input)
      requires Reached() && Enabled(state, i)
      modifies this`state, this`inputs
      ensures Reached() && state == React(old(state), i)
    {
      PlayNext(Begin(hostname, username), inputs, i);
      inputs := inputs + [i];
      state := React(state, i);
    }

    /** One call of `send` on what is left of `data`: a count, nothing if interrupted, or a failure. */
    method SendSome(data: seq<byte>, totalSent: nat, ghost start: ClientState, ghost whole: Pushed)
      returns (sent: Option<nat>, failed: bool)
      requires Reached() && (start.phase.Requesting? || start.phase.Uploading?)
      requires data == Payload(start) && totalSent < |data|
      requires state == Sending(start, totalSent) && PushLeft(data, totalSent, sends, whole)
      modifies this`sends, this`state, this`inputs
      ensures Reached() && (failed ==> sent == None)
      ensures !failed ==>
                var n := if sent.Some? then sent.value else 0;
                && (sent.Some? ==> 0 < n) && totalSent + n <= |data|
                && state == Sending(start, totalSent + n) && PushLeft(data, totalSent + n, sends, whole)
      ensures failed ==> whole == Pushed(data[..totalSent], sends, false)
      ensures failed ==> state == start.(written := start.written + data[..totalSent], phase := Ended)
      ensures |sends| < |old(sends)| || failed
    {
      hide Sending, PushLeft, Push, AuthRequest, ImageFrame, Enabled, React;
      PushUnfolds(data, totalSent, sends, whole);
      SendingReacts(start, totalSent);
      var answer := if sends == [] then SendFailed else sends[0];
      sends := if sends == [] then [] else sends[1..];
      if answer.Room? && answer.k > 0 {
        var n := Min(answer.k, |data| - totalSent);
        Note(Accepted(n));
        return Some(n), false;
      }
      if answer.SendInterrupted? {
        Note(Interrupted);
        return None, false;
      }
      Note(Broken);
      return None, true;
    }

    /** False where the source throws. */
    method SendAll(data: seq<byte>) returns (ok: bool)
      requires Reached()
      requires (state.phase.Requesting? || state.phase.Uploading?) && state.phase.sent == 0
      requires data == Payload(state) && data != []
      modifies this`sends, this`state, this`inputs
      ensures Reached()
      ensures ok == Push(data, old(sends)).ok && sends == Push(data, old(sends)).answers
      ensures state == old(state).(
                written := old(state).written + Push(data, old(sends)).sent,
                phase := if !ok then Ended else if old(state).phase.Requesting? then AwaitingVerdict else Idle)
    {
      var totalSent := 0;
      ghost var start := state;
      ghost var whole := Push(data, sends);
      PushStarts(data, sends);
      while totalSent < |data|
        invariant 0 <= totalSent <= |data| && Reached()
        invariant state == Sending(start, totalSent) && PushLeft(data, totalSent, sends, whole)
        decreases |sends|
      {
        hide Reached, Sending, PushLeft, Push, AuthRequest, ImageFrame;
        var sent, failed := SendSome(data, totalSent, start, whole);
        if failed {
          return false;
        }
        totalSent := totalSent + if sent.Some? then sent.value else 0;
      }
      PushEnds(data, sends, whole);
      assert data[..|data|] == data;
      return true;
    }

    /** The bytes asked for, or nothing where the source throws. */
    method RecvAll(total: nat) returns (ok: bool, buffer: seq<byte>)
      requires Reached() && state.phase.AwaitingVerdict?
      modifies this`recvs, this`state, this`inputs
      ensures Reached()
      ensures ok <==> total <= |Inbound(old(recvs))|
      ensures ok ==> buffer == Inbound(old(recvs))[..total] && state == old(state)
      ensures !ok ==> state == old(state).(phase := Ended)
    {
      buffer := [];
      while |buffer| < total
        invariant |buffer| <= total && Reached() && state == old(state)
        invariant |buffer| < total ==> Inbound(old(recvs)) == buffer + Inbound(recvs)
        invariant buffer <= Inbound(old(recvs))
        decreases |recvs|, total - |buffer|
      {
        hide Reached, AuthRequest, ImageFrame;
        var answer := if recvs == [] then RecvFailed else recvs[0];
        recvs := if recvs == [] then [] else recvs[1..];
        match answer {
          case Data(bytes) =>
            var n := Min(|bytes|, total - |buffer|);
            if n == 0 {
              Note(Broken);
              return false, buffer;
            }
            Grown(buffer, bytes, n, Inbound(recvs));
            buffer := buffer + bytes[..n];
          case RecvInterrupted =>
            Note(Interrupted);
          case RecvAgain =>
            Note(Broken);
            return false, buffer;
          case RecvFailed =>
            Note(Broken);
            return false, buffer;
        }
      }
      return true, buffer;
    }

    method TryAuthenticate() returns (ok: bool)
      requires Reached() && state == Begin(hostname, username)
      modifies this`sends, this`recvs, this`state, this`inputs
      ensures Reached()
      ensures var p := Push(AuthRequest(hostname, username), old(sends)); var reply := Inbound(old(recvs));
              && state.written == p.sent && sends == p.answers && state.images == []
              && (ok <==> p.ok && reply != [] && reply[0] == YES)
              && state.phase == (if ok then Idle else Ended)
    {
      var request := CreateAuthenticationRequest(hostname, username);
      ok := SendAll(request);
      if ok {
        var got, buffer := RecvAll(1);
        if got {
          Note(Verdict(buffer[0]));
        }
        ok := got && buffer[0] == YES;
      }
    }

    method SendLoop()
      requires Reached() && state.phase.Idle?
      modifies this`sends, this`grabs, this`state, this`inputs
      ensures Reached() && state.phase.Ended?
      ensures state.written == old(state).written + Uploads(old(sends), old(grabs))
    {
      while grabs != []
        invariant Reached() && state.phase.Idle?
        invariant state.written + Uploads(sends, grabs) == old(state).written + Uploads(old(sends), old(grabs))
        decreases |grabs|
      {
        hide ImageFrame;
        var grab := grabs[0];
        ghost var p := if grab.Image? then Push(ImageFrame(grab.image), sends) else Pushed([], [], true);
        grabs := grabs[1..];
        match grab {
          case NoImage =>
            Note(CaptureFailed);
          case Image(image) =>
            Note(Captured(image));
            var frame := CreateImgMessage(image);
            ghost var written := state.written;
            var ok := SendAll(frame);
            if !ok {
              assert p.sent + [] == p.sent;
              return;
            }
            Assoc(written, p.sent, Uploads(sends, grabs));
        }
      }
      assert state.written + [] == state.written;
      Note(Stopped);
    }

    /**
     * A whole run: the machine ends in a reachable state, having written what the kernel's and the
     * grabber's scripts determine.
     */
    method Run()
      requires Reached() && state == Begin(hostname, username)
      modifies this`sends, this`recvs, this`grabs, this`state, this`inputs
      ensures Reached() && state.phase.Ended?
      ensures state.written == Transcript(hostname, username, old(sends), old(recvs), old(grabs))
      ensures Settled(state) <= state.written <= Stream(hostname, username, state.images)
    {
      var ok := TryAuthenticate();
      assert state.written + [] == state.written;
      if ok {
        SendLoop();
      }
      ClientTrace(hostname, username, inputs);
    }
  }
}
