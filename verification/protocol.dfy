/**
 * The protocol as it is documented, in characters and numbers, and what client and server make of
 * it.  Nothing here is stated through the constants that the two sides share.
 */
module Protocol {
  import opened Bytes
  import opened Framing
  import opened Parsing
  import opened Auth
  import opened Sessions
  import opened SessionLaws
  import opened SessionRuns
  import opened Clients

  // ---------- What the client writes ----------

  /**
   * 'A', the four-byte length of what follows, and two names with their two-byte lengths in front,
   * all lengths most significant byte first (`Bytes.NetworkOrder`).
   */
  lemma RequestOnWire(h: seq<byte>, u: seq<byte>)
    ensures AuthRequest(h, u) == ['A' as int] + Be32(4 + |h| + |u|) + Be16(|h|) + h + Be16(|u|) + u
  {
    var size, x, y := Be32(4 + |h| + |u|), Be16(|h|), Be16(|u|);
    hide Be16, Be32;
    assert |AuthBody(h, u)| == 4 + |h| + |u|;
    assert ['A' as int] + size + ((x + h) + (y + u)) == ['A' as int] + size + x + h + y + u;
  }

  /** 'I', the four-byte length of the image, and the image. */
  lemma ImageOnWire(image: seq<byte>)
    ensures ImageFrame(image) == ['I' as int] + Be32(|image|) + image
  {
  }

  // ---------- What the parser makes of it ----------

  /** A body of 1 byte to 10 MiB makes a message; a longer one costs the header, and is read as headers. */
  lemma FrameRead(kind: byte, body: seq<byte>)
    requires |body| < 0x1_0000_0000
    ensures 1 <= |body| <= 10485760 ==>
              Scan(Encode(kind, body)) == Scanned([Frame(MessageOf(kind, body))], [], Starved)
    ensures |body| > 10485760 ==>
              && HeadOf(Encode(kind, body)) == Ready(Skipped(Encode(kind, body)[..5]))
              && Scan(Encode(kind, body)) == Scanned([Skipped(Encode(kind, body)[..5])], body, Oversize)
  {
    if 1 <= |body| <= 10485760 {
      EncodedScan(kind, body);
    } else if |body| > 10485760 {
      var b := Encode(kind, body);
      assert b[1..5] == Be32(|body|) && b[5..] == body;
      hide Be32, U32;
    }
  }

  /** As long as a byte of it is missing, a message is neither queued nor dropped. */
  lemma FrameAwaited(kind: byte, body: seq<byte>, n: nat)
    requires 1 <= |body| <= 10485760 && n < |Encode(kind, body)|
    ensures Scan(Encode(kind, body)[..n]) == Scanned([], Encode(kind, body)[..n], Starved)
  {
    var b, size := Encode(kind, body), Be32(|body|);
    assert U32(size) == |body|;
    hide Be32, U32;
    if n >= HEADER_SIZE {
      SizeField(kind, size, body, n);
    }
  }

  lemma SizeField(kind: byte, size: seq<byte>, body: seq<byte>, n: nat)
    requires |size| == 4 && 5 <= n <= 5 + |body|
    ensures ([kind] + size + body)[..n][1..5] == size
  {
  }

  // ---------- What the session makes of it ----------

  /** Requests and images are handled, and nothing else. */
  lemma KindsHandled(s: State, mask: Mask, r: Readiness)
    requires s.messages != [] && |s.messages[0].typeVec| == 1
    ensures var t := OnQueue(s, mask, r).state; var kind := s.messages[0].typeVec[0];
            && (kind == 'A' as int ==>
                  |t.journal.verdicts| == |s.journal.verdicts| + 1 && t.messages == s.messages[1..])
            && (kind == 'I' as int ==> |t.journal.saved| == |s.journal.saved| + 1 && t.messages == s.messages[1..])
            && (kind != 'A' as int && kind != 'I' as int ==> t == s)
    ensures Handles(s.messages[0]) <==> s.messages[0].typeVec in {['A' as int], ['I' as int]}
  {
    KindsOfQueue(s, mask, r);
    hide ReadAuth, Flush;
  }

  /** The reply is 'Y' or 'N', one byte; it takes the place of a reply still waiting. */
  lemma ReplyOnWire(s: State, ok: bool)
    requires |s.response| <= 1
    ensures var t := Send(Reply(s, ok), [Room(1)]);
            && t.response == []
            && t.journal.sent == s.journal.sent + (if ok then ['Y' as int] else ['N' as int])
  {
    ReplyFlushed(Reply(s, ok).response, Room(1));
  }

  /** A name has 1 to 255 of the letters and digits of ASCII, '-' and '_'. */
  lemma NamesAllowed(name: seq<byte>)
    ensures ValidName(name) <==>
            && 1 <= |name| <= 255
            && forall k :: 0 <= k < |name| ==>
                 var c := name[k] as char;
                 '0' <= c <= '9' || 'A' <= c <= 'Z' || 'a' <= c <= 'z' || c == '-' || c == '_'
  {
  }

  /**
   * A connection on which a request and an image arrive: the request is answered, with 'Y' if both
   * names are valid and 'N' if not, and the image is saved under the names that were sent, if they are.
   */
  lemma Conversation(fd: int, h: seq<byte>, u: seq<byte>, image: seq<byte>)
    requires |h| < 0x1_0000 && |u| < 0x1_0000 && 1 <= |image| <= 10485760
    ensures var st := History(fd, [InputReport([Data(AuthRequest(h, u))], [Room(1)]),
                                   InputReport([Data(ImageFrame(image))], [])]);
            var ok := ValidName(h) && ValidName(u);
            && st.outcome.Alive?
            && st.state.journal.sent + st.state.response == [if ok then 'Y' as int else 'N' as int]
            && (ok ==> st.state.journal.saved == [Saved(h, u, image)])
  {
    var events := [InputReport([Data(AuthRequest(h, u))], [Room(1)]), InputReport([Data(ImageFrame(image))], [])];
    assert 1 <= |AuthBody(h, u)| <= 10485760;
    ConversationReplayed(h, u, image);
    hide History, FramesOf, Decode, Replay, AuthBody, MessageOf, InputReport, ValidName, Encode;
    RequestThenImage(fd, AuthBody(h, u), image);
    FifoOverRuns(fd, events);
    CoalescingOverRuns(fd, events);
    var s := History(fd, events).state;
    LoneReply(s.journal.sent, s.response, s.journal.verdicts[0]);
  }

  lemma ConversationReplayed(h: seq<byte>, u: seq<byte>, image: seq<byte>)
    requires |h| < 0x1_0000 && |u| < 0x1_0000
    ensures var e := Replay([MessageOf(TYPE_AUTH, AuthBody(h, u)), MessageOf(TYPE_IMAGE, image)]);
            && e.verdicts == [ValidName(h) && ValidName(u)]
            && (ValidName(h) && ValidName(u) ==> e.saved == [Saved(h, u, image)])
  {
    ClientRequestVerdict(h, u, [], []);
    var request, picture := MessageOf(TYPE_AUTH, AuthBody(h, u)), MessageOf(TYPE_IMAGE, image);
    ReplayNext([], request);
    ReplayNext([request], picture);
    assert Replay([]) == Effects([], [], [], []);
    hide Replay, ReadAuth, AuthBody, ValidName;
    assert [] + [request] == [request] && [request] + [picture] == [request, picture];
    var ok, saved := ValidName(h) && ValidName(u), Saved(h, u, image);
    assert [] + [ok] == [ok] && [] + [saved] == [saved];
  }

  lemma LoneReply(sent: seq<byte>, response: seq<byte>, ok: bool)
    requires RepliesFollow(sent, response, [ok])
    ensures sent + response == [if ok then 'Y' as int else 'N' as int]
  {
    ThinnedIsShorter(sent + response, [ok]);
    ThinnedByNone(sent + response, [ok]);
  }

  /** With no room for the reply and epoll refusing to ask for it, the event throws. */
  lemma RefusedArmingThrows(fd: int, h: seq<byte>, u: seq<byte>)
    requires |h| < 0x1_0000 && |u| < 0x1_0000
    ensures var r := Readiness(false, false, true, [], true, [Data(AuthRequest(h, u))], [SendAgain], false);
            var st := OnEvent(Fresh(fd), Mask(true, false), r);
            st.outcome.Threw? && st.mask == Mask(true, false) && st.state.response != []
  {
    var b, body := AuthRequest(h, u), AuthBody(h, u);
    var m := MessageOf(TYPE_AUTH, body);
    var r := Readiness(false, false, true, [], true, [Data(b)], [SendAgain], false);
    assert 1 <= |body| <= 10485760 && |b| > 0 && m.typeVec == [TYPE_AUTH];
    EncodedScan(TYPE_AUTH, body);
    hide Scan, AuthBody, Encode, MessageOf, Parse, ParsedTo;
    DrainOnce(b);
    ArrivesQueued(Fresh(fd), b, m);
    var s := Parse(Receive(Fresh(fd), b));
    KindsOfQueue(s, Mask(true, false), r);
    ReplyFlushed(Reply(TakeAuth(s), Judge(s).ok).response, SendAgain);
    hide Flush, ReadAuth;
  }

  // ---------- What the client makes of the answer ----------

  /** The client goes on to its images on 'Y' and on nothing else. */
  lemma YesStartsUploads(
    h: seq<byte>, u: seq<byte>, sends: seq<SendAnswer>, recvs: seq<RecvAnswer>, grabs: seq<Grab>)
    requires Push(AuthRequest(h, u), sends).ok && Inbound(recvs) != []
    ensures Transcript(h, u, sends, recvs, grabs) ==
            AuthRequest(h, u) +
            if Inbound(recvs)[0] == 'Y' as int then Uploads(Push(AuthRequest(h, u), sends).answers, grabs) else []
  {
    PushSplits(AuthRequest(h, u), sends);
  }

  /** A failed capture, wherever it comes, makes no difference to the bytes written. */
  lemma {:induction false} FailedCapturesVanish(sends: seq<SendAnswer>, xs: seq<Grab>, ys: seq<Grab>)
    ensures Uploads(sends, xs + [NoImage] + ys) == Uploads(sends, xs + ys)
    decreases |xs|
  {
    var all := xs + [NoImage] + ys;
    if xs == [] {
      assert all[0] == NoImage && all[1..] == ys == xs + ys;
    } else {
      assert all[0] == xs[0] == (xs + ys)[0];
      assert all[1..] == xs[1..] + [NoImage] + ys && (xs + ys)[1..] == xs[1..] + ys;
      if xs[0].Image? {
        FailedCapturesVanish(Push(ImageFrame(xs[0].image), sends).answers, xs[1..], ys);
      } else {
        FailedCapturesVanish(sends, xs[1..], ys);
      }
    }
  }

  /** A connection that fails under an image ends the uploads. */
  lemma FailureEndsUploads(sends: seq<SendAnswer>, image: seq<byte>, more: seq<Grab>)
    requires !Push(ImageFrame(image), sends).ok
    ensures Uploads(sends, [Image(image)] + more) == Push(ImageFrame(image), sends).sent < ImageFrame(image)
  {
    assert ([Image(image)] + more)[0] == Image(image);
    PushSplits(ImageFrame(image), sends);
  }

  /** An interruption of the client's `send`, wherever it comes, makes no difference to what gets out. */
  lemma {:induction false} PushInterruptionsVanish(data: seq<byte>, xs: seq<SendAnswer>, ys: seq<SendAnswer>)
    ensures var p, q := Push(data, xs + [SendInterrupted] + ys), Push(data, xs + ys);
            p.sent == q.sent && p.ok == q.ok
    decreases |xs|
  {
    SendInterruptionsVanish(data, xs, ys);
    PushIsFlush(data, xs + [SendInterrupted] + ys);
    PushIsFlush(data, xs + ys);
  }
}
