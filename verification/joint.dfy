/**
 * One client, its server session, and the two byte pipes between them, under any interleaving of
 * their steps and any way for the kernel to cut the streams up.
 */
module Joint {
  import opened Bytes
  import opened Framing
  import opened Parsing
  import opened Auth
  import opened Sessions
  import opened SessionLaws
  import opened Clients
  import Servers
  import ServerLaws

  /** `outcome` says whether the session is still served, and if not, why. */
  datatype World = World(
    client: ClientState,
    up: seq<byte>,
    down: seq<byte>,
    server: State,
    mask: Mask,
    outcome: Outcome
  )

  function Connected(hostname: seq<byte>, username: seq<byte>, fd: int): World {
    World(Begin(hostname, username), [], [], Fresh(fd), READ_ONLY, Alive)
  }

  datatype Move = ClientMoves(input: Input) | ServerMoves(ready: Readiness)

  /**
   * Either side reads only what the other has written, and the screen grabber delivers images of
   * one byte up to 10 MiB, if it delivers any.
   */
  predicate Possible(w: World, m: Move) {
    match m
    case ClientMoves(i) =>
      && Enabled(w.client, i)
      && (i.Verdict? ==> w.down != [] && w.down[0] == i.reply)
      && (i.Captured? ==> 1 <= |i.image| <= 10485760)
    case ServerMoves(r) =>
      w.outcome.Alive? && (r.readable ==> Drain(r.recvs).data <= w.up)
  }

  function Dropped(n: int, s: seq<byte>): seq<byte> {
    if 0 <= n <= |s| then s[n..] else []
  }

  function Next(w: World, m: Move): World
    requires Possible(w, m)
  {
    match m
    case ClientMoves(i) =>
      var c := React(w.client, i);
      w.(client := c,
         up := w.up + Dropped(|w.client.written|, c.written),
         down := if i.Verdict? then w.down[1..] else w.down)
    case ServerMoves(r) =>
      var st := OnEvent(w.server, w.mask, r);
      w.(server := st.state, mask := st.mask, outcome := st.outcome,
         up := Dropped(|st.state.journal.received| - |w.server.journal.received|, w.up),
         down := w.down + Dropped(|w.server.journal.sent|, st.state.journal.sent))
  }

  predicate PossibleRun(w: World, moves: seq<Move>)
    decreases |moves|
  {
    moves == [] || (Possible(w, moves[0]) && PossibleRun(Next(w, moves[0]), moves[1..]))
  }

  function Run(w: World, moves: seq<Move>): World
    requires PossibleRun(w, moves)
    decreases |moves|
  {
    if moves == [] then w else Run(Next(w, moves[0]), moves[1..])
  }

  // ---------- The invariant ----------

  function OutboxOf(c: ClientState): seq<Outgoing> {
    Outbox(c.hostname, c.username, c.images)
  }

  predicate FairClient(c: ClientState) {
    && |c.hostname| < 0x1_0000 && |c.username| < 0x1_0000
    && forall k :: 0 <= k < |c.images| ==> 1 <= |c.images[k]| <= MAX_MESSAGE_SIZE
  }

  /** No byte is lost or invented between the two ends. */
  predicate PipesHold(w: World) {
    && w.client.written == w.server.journal.received + w.up
    && w.server.journal.sent == w.client.verdict + w.down
  }

  /** A session that is served has nothing complete left to parse. */
  predicate Caught(w: World) {
    !w.outcome.Hung? && (w.outcome.Alive? ==> HeadOf(Pending(ParserOf(w.server))).NeedMore?)
  }

  ghost predicate JointInv(w: World) {
    && ClientInv(w.client) && FairClient(w.client)
    && StateInv(w.server) && (w.outcome.Alive? ==> MaskInv(w.server, w.mask))
    && PipesHold(w) && Caught(w)
  }

  // ---------- The client's stream ----------

  lemma OutboxSendable(c: ClientState)
    requires FairClient(c)
    ensures Sendable(OutboxOf(c))
  {
  }

  /** Where a parser that has consumed some items of a well-formed stream stands. */
  lemma {:induction false} ConsumedSoFar(ms: seq<Outgoing>, consumed: seq<Item>, b: seq<byte>)
    requires Sendable(ms) && ItemsOk(consumed)
    requires Wire(consumed) + b <= EncodeAll(ms)
    ensures consumed <= ItemsFor(ms)
    ensures var tail := EncodeAll(ms)[|Wire(consumed) + b|..];
            Decode(b + tail) == Decoded(ItemsFor(ms)[|consumed|..], [])
  {
    var tail := EncodeAll(ms)[|Wire(consumed) + b|..];
    RoundTripExactlyWhen(ms);
    Assoc(Wire(consumed), b, tail);
    assert EncodeAll(ms) == Wire(consumed) + (b + tail);
    DecodeWire(consumed, b + tail);
  }

  lemma {:induction false} OversizeShows(b: seq<byte>)
    requires Scan(b).halt.Oversize?
    ensures !AllFrames(Scan(b).items)
    decreases |b|
  {
    var i := HeadOf(b).item;
    if i.Skipped? {
      assert Scan(b).items[0] == i;
    } else {
      var tail := b[|ItemBytes(i)|..];
      OversizeShows(tail);
      var k :| 0 <= k < |Scan(tail).items| && !Scan(tail).items[k].Frame?;
      assert Scan(b).items[k + 1] == Scan(tail).items[k];
    }
  }

  /** On a prefix of a well-formed stream the parser stops only for want of bytes. */
  lemma PrefixStarves(ms: seq<Outgoing>, consumed: seq<Item>, b: seq<byte>)
    requires Sendable(ms) && ItemsOk(consumed)
    requires Wire(consumed) + b <= EncodeAll(ms)
    ensures Scan(b).halt.Starved?
  {
    var tail := EncodeAll(ms)[|Wire(consumed) + b|..];
    ConsumedSoFar(ms, consumed, b);
    var sc := Scan(b);
    ScanConserves(b);
    Assoc(Wire(sc.items), sc.rest, tail);
    DecodeWire(sc.items, sc.rest + tail);
    var all := ItemsFor(ms)[|consumed|..];
    forall k | 0 <= k < |sc.items| ensures sc.items[k].Frame? {
      assert sc.items[k] == all[k];
    }
    if sc.halt.Oversize? {
      OversizeShows(b);
    }
    HeadKept(sc.rest, tail);
  }

  lemma {:induction false} FramesOfPrefix(ms: seq<Outgoing>, consumed: seq<Item>)
    requires consumed <= ItemsFor(ms)
    ensures FramesOf(consumed) == MessagesFor(ms)[..|consumed|]
  {
    var first, rest := ms[..|consumed|], ms[|consumed|..];
    assert consumed == ItemsFor(first);
    EncodeAllIsWire(first);
    assert MessagesFor(first) == MessagesFor(ms)[..|consumed|];
  }

  // ---------- Steps ----------

  /** A readable event only adds to what was received and sent, and receives what the kernel hands over. */
  lemma ReadableMovesBytes(s: State, mask: Mask, r: Readiness)
    ensures var j, j' := s.journal, OnReadable(s, mask, r).state.journal;
            j.sent <= j'.sent && j'.received == j.received + Drain(r.recvs).data
  {
    hide ReadAuth, Flush, Drain, Scan, Resting, Pending;
  }

  lemma EventMovesBytes(s: State, mask: Mask, r: Readiness)
    ensures var j, j' := s.journal, OnEvent(s, mask, r).state.journal;
            && j.sent <= j'.sent
            && (j'.received == j.received || (r.readable && j'.received == j.received + Drain(r.recvs).data))
  {
    var w := Before(s, mask, r);
    assert w.state.journal.received == s.journal.received && s.journal.sent <= w.state.journal.sent;
    ReadableMovesBytes(w.state, w.mask, r);
    hide OnReadable, Flush, Drain;
  }

  lemma ClientMoveKeeps(w: World, i: Input)
    requires JointInv(w) && Possible(w, ClientMoves(i))
    ensures JointInv(Next(w, ClientMoves(i)))
  {
    hide ClientInv, StateInv;
    ReactKeeps(w.client, i);
    VerdictOnce(w.client);
    var c := React(w.client, i);
    assert w.client.written <= c.written;
    Assoc(w.server.journal.received, w.up, Dropped(|w.client.written|, c.written));
    assert w.client.written + c.written[|w.client.written|..] == c.written;
    if i.Verdict? {
      assert w.server.journal.sent == [w.down[0]] + w.down[1..];
    }
  }

  lemma VerdictOnce(c: ClientState)
    requires ClientInv(c)
    ensures c.phase.AwaitingVerdict? ==> c.verdict == []
  {
  }

  /** What a served session has received is a prefix of what the client has to say. */
  lemma ReceivedIsPrefix(w: World, data: seq<byte>)
    requires JointInv(w) && data <= w.up
    ensures Wire(w.server.journal.consumed) + (Pending(ParserOf(w.server)) + data) <= EncodeAll(OutboxOf(w.client))
  {
    hide Replay, Coalesced, FramesOf;
    var j := w.server.journal;
    Assoc(Wire(j.consumed), Pending(ParserOf(w.server)), data);
    assert j.received + data <= w.client.written;
  }

  lemma ServerMoveCatches(w: World, r: Readiness)
    requires JointInv(w) && Possible(w, ServerMoves(r))
    ensures Caught(Next(w, ServerMoves(r)))
  {
    var b := Pending(ParserOf(w.server));
    if r.readable {
      var data := Drain(r.recvs).data;
      OutboxSendable(w.client);
      ReceivedIsPrefix(w, data);
      PrefixStarves(OutboxOf(w.client), w.server.journal.consumed, b + data);
    }
    EventLeavesScanned(w.server, w.mask, r);
  }

  lemma ParseLeavesStarved(s: State)
    requires Scan(Pending(ParserOf(s))).halt.Starved?
    ensures HeadOf(Pending(ParserOf(Parse(s)))).NeedMore?
  {
    var sc := Scan(Pending(ParserOf(s)));
    ScanConserves(Pending(ParserOf(s)));
    RestingHolds(s.messages + FramesOf(sc.items), sc.rest, sc.halt);
  }

  lemma ReadableLeavesScanned(s: State, mask: Mask, r: Readiness)
    requires Drain(r.recvs).alive ==> Scan(Pending(ParserOf(s)) + Drain(r.recvs).data).halt.Starved?
    ensures var st := OnReadable(s, mask, r);
            st.outcome.Alive? ==> HeadOf(Pending(ParserOf(st.state))).NeedMore?
  {
    var t := Receive(s, Drain(r.recvs).data);
    assert Pending(ParserOf(t)) == Pending(ParserOf(s)) + Drain(r.recvs).data;
    if Drain(r.recvs).alive {
      ParseLeavesStarved(t);
      QueueLeavesPending(Parse(t), mask, r);
    }
    hide OnQueue, Parse, Scan, HeadOf, Pending, Drain;
  }

  /** After an event that the session survives, nothing complete is pending. */
  lemma EventLeavesScanned(s: State, mask: Mask, r: Readiness)
    requires r.readable && Drain(r.recvs).alive ==> Scan(Pending(ParserOf(s)) + Drain(r.recvs).data).halt.Starved?
    requires HeadOf(Pending(ParserOf(s))).NeedMore? && StateInv(s)
    ensures var st := OnEvent(s, mask, r);
            !st.outcome.Hung? && (st.outcome.Alive? ==> HeadOf(Pending(ParserOf(st.state))).NeedMore?)
  {
    var w := Before(s, mask, r);
    SendLeavesQueue(s, r.sends);
    HangsExactlyWhen(s, mask, r);
    hide OnReadable, StateInv, Drain, Scan, HeadOf, Pending, Flush;
    if r.readable {
      ReadableLeavesScanned(w.state, w.mask, r);
    }
  }

  lemma ServerMoveKeeps(w: World, r: Readiness)
    requires JointInv(w) && Possible(w, ServerMoves(r))
    ensures JointInv(Next(w, ServerMoves(r)))
  {
    ServerMoveCatches(w, r);
    EventKeeps(w.server, w.mask, r);
    PipesMoved(w, r);
    hide OnEvent, ClientInv, FairClient, StateInv, MaskInv, PipesHold, Caught;
  }

  lemma PipesMoved(w: World, r: Readiness)
    requires PipesHold(w) && Possible(w, ServerMoves(r))
    ensures PipesHold(Next(w, ServerMoves(r)))
  {
    EventMovesBytes(w.server, w.mask, r);
    hide OnEvent, Drain;
    var s, s' := w.server.journal, OnEvent(w.server, w.mask, r).state.journal;
    if s'.received != s.received {
      var data := Drain(r.recvs).data;
      assert w.up == data + w.up[|data|..];
      Assoc(s.received, data, w.up[|data|..]);
    }
    assert s'.sent == s.sent + s'.sent[|s.sent|..];
    Assoc(w.client.verdict, w.down, s'.sent[|s.sent|..]);
  }

  lemma {:induction false} RunKeepsJoint(w: World, moves: seq<Move>)
    requires JointInv(w) && PossibleRun(w, moves)
    ensures JointInv(Run(w, moves))
    decreases |moves|
  {
    hide JointInv, Possible, Next;
    if moves != [] {
      match moves[0] {
        case ClientMoves(i) => ClientMoveKeeps(w, i);
        case ServerMoves(r) => ServerMoveKeeps(w, r);
      }
      RunKeepsJoint(Next(w, moves[0]), moves[1..]);
    }
  }

  lemma ConnectedHolds(hostname: seq<byte>, username: seq<byte>, fd: int)
    requires |hostname| < 0x1_0000 && |username| < 0x1_0000
    ensures JointInv(Connected(hostname, username, fd))
  {
    BeginHolds(hostname, username);
    FreshHolds(fd);
  }

  /** A session fed by this client never hangs the server, and while it is served nothing complete is left unparsed. */
  lemma NeverHangs(hostname: seq<byte>, username: seq<byte>, fd: int, moves: seq<Move>)
    requires |hostname| < 0x1_0000 && |username| < 0x1_0000
    requires PossibleRun(Connected(hostname, username, fd), moves)
    ensures Caught(Run(Connected(hostname, username, fd), moves))
  {
    ConnectedHolds(hostname, username, fd);
    RunKeepsJoint(Connected(hostname, username, fd), moves);
  }

  // ---------- What the server makes of it ----------

  /** What handling the first `k` messages of a client amounts to. */
  function Outcomes(hostname: seq<byte>, username: seq<byte>, images: seq<seq<byte>>, k: nat): Effects
    requires k <= |images| + 1
  {
    if k == 0 then Effects([], [], [], [])
    else
      var r := ReadAuth(AuthBody(hostname, username), [], []);
      Effects(r.hostname, r.username, [r.ok],
              seq(k - 1, j requires 0 <= j < k - 1 => Saved(r.hostname, r.username, images[j])))
  }

  lemma {:induction false} ReplayOutbox(hostname: seq<byte>, username: seq<byte>, images: seq<seq<byte>>, k: nat)
    requires k <= |images| + 1
    ensures Replay(MessagesFor(Outbox(hostname, username, images))[..k]) == Outcomes(hostname, username, images, k)
  {
    hide ReadAuth, Replay, AuthBody;
    var ms := MessagesFor(Outbox(hostname, username, images));
    if k == 0 {
      assert ms[..0] == [] && Replay([]) == Outcomes(hostname, username, images, 0) by {
        ReplayNone();
      }
    } else {
      ReplayOutbox(hostname, username, images, k - 1);
      assert ms[..k] == ms[..k - 1] + [ms[k - 1]];
      ReplayNext(ms[..k - 1], ms[k - 1]);
      if k == 1 {
        assert ms[0] == MessageOf(TYPE_AUTH, AuthBody(hostname, username));
        var ok := ReadAuth(AuthBody(hostname, username), [], []).ok;
        assert [] + [ok] == [ok];
      } else {
        assert ms[k - 1] == MessageOf(TYPE_IMAGE, images[k - 2]);
      }
    }
  }

  lemma ReplayNone()
    ensures Replay([]) == Effects([], [], [], [])
  {
  }

  lemma FrontOfFront<T>(x: seq<T>, y: seq<T>, all: seq<T>, n: nat)
    requires n <= |all| && x + y == all[..n]
    ensures |x| <= |all| && x == all[..|x|]
  {
    assert x == (x + y)[..|x|];
  }

  /** The server has handled the first messages of the client's outbox, and their effects are in place. */
  lemma HandledFromOutbox(w: World)
    requires JointInv(w)
    ensures var c, s := w.client, w.server; var k := |s.journal.handled|;
            && k <= |c.images| + 1
            && s.journal.handled == MessagesFor(OutboxOf(c))[..k]
            && EffectsOf(s) == Outcomes(c.hostname, c.username, c.images, k)
  {
    var s := w.server;
    var ms := OutboxOf(w.client);
    OutboxSendable(w.client);
    ReceivedIsPrefix(w, []);
    assert Pending(ParserOf(s)) + [] == Pending(ParserOf(s));
    ConsumedSoFar(ms, s.journal.consumed, Pending(ParserOf(s)));
    FramesOfPrefix(ms, s.journal.consumed);
    var k := |s.journal.handled|;
    assert FramesOf(s.journal.consumed) == s.journal.handled + s.messages;
    assert EffectsOf(s) == Replay(s.journal.handled) && |MessagesFor(ms)| == |w.client.images| + 1;
    hide JointInv, Replay, EffectsOf, Outcomes, FramesOf, MessagesFor, ItemsFor, Wire, Pending;
    FrontOfFront(s.journal.handled, s.messages, MessagesFor(ms), |s.journal.consumed|);
    ReplayOutbox(w.client.hostname, w.client.username, w.client.images, k);
  }

  lemma YesWasSaid(w: World)
    requires JointInv(w) && w.client.verdict == [YES]
    ensures true in w.server.journal.verdicts
  {
    var s := w.server;
    var replies := s.journal.sent + s.response;
    assert replies[0] == YES;
    CoalescedIsThinned(replies, s.journal.verdicts);
    ThinnedIsShorter(replies, s.journal.verdicts);
  }

  /** The client hears whether both its names are valid, if it hears anything. */
  lemma {:induction false} VerdictHeard(hostname: seq<byte>, username: seq<byte>, fd: int, moves: seq<Move>)
    requires |hostname| < 0x1_0000 && |username| < 0x1_0000
    requires PossibleRun(Connected(hostname, username, fd), moves)
    ensures var w := Run(Connected(hostname, username, fd), moves);
            w.client.verdict != [] ==> w.client.verdict == [VerdictByte(ValidName(hostname) && ValidName(username))]
  {
    ConnectedHolds(hostname, username, fd);
    RunKeepsJoint(Connected(hostname, username, fd), moves);
    NamesKept(Connected(hostname, username, fd), moves);
    hide JointInv, Run, PossibleRun, ValidName;
    var w := Run(Connected(hostname, username, fd), moves);
    if w.client.verdict != [] {
      VerdictOfNames(w);
    }
  }

  lemma VerdictOfNames(w: World)
    requires JointInv(w) && w.client.verdict != []
    ensures w.client.verdict == [VerdictByte(ValidName(w.client.hostname) && ValidName(w.client.username))]
  {
    var c, s := w.client, w.server;
    HandledFromOutbox(w);
    ClientRequestVerdict(c.hostname, c.username, [], []);
    RepliesHeard(w);
    hide JointInv, ReadAuth, ValidName, Thinned, MessagesFor, AuthBody;
    assert s.journal.verdicts == [] || s.journal.verdicts == [ReadAuth(AuthBody(c.hostname, c.username), [], []).ok];
    SingleVerdict(s.journal.sent + s.response, s.journal.verdicts);
  }

  /** What the client heard is the first of the replies. */
  lemma RepliesHeard(w: World)
    requires JointInv(w) && w.client.verdict != []
    ensures var replies := w.server.journal.sent + w.server.response;
            replies != [] && w.client.verdict == [replies[0]] && Thinned(replies, w.server.journal.verdicts)
  {
    CoalescedIsThinned(w.server.journal.sent + w.server.response, w.server.journal.verdicts);
    hide Thinned, Coalesced, BytesConserved, HandledInOrder, FairClient;
  }

  lemma SingleVerdict(replies: seq<byte>, v: seq<bool>)
    requires Thinned(replies, v) && replies != [] && |v| <= 1
    ensures |v| == 1 && replies == [VerdictByte(v[0])]
  {
    ThinnedIsShorter(replies, v);
    ThinnedByNone(replies, v);
  }

  /** `saved` holds the first of `images`, in order, filed under these names, which are valid if any is. */
  predicate Faithful(saved: seq<Saved>, hostname: seq<byte>, username: seq<byte>, images: seq<seq<byte>>) {
    && |saved| <= |images|
    && (forall j :: 0 <= j < |saved| ==> saved[j] == Saved(hostname, username, images[j]))
    && (saved != [] ==> ValidName(hostname) && ValidName(username))
  }

  /**
   * The images saved are the first of the images the client set out to send, byte for byte and in
   * order, each filed under exactly this client's host and user names, both of which are valid.
   */
  lemma {:induction false} ImagesFaithful(hostname: seq<byte>, username: seq<byte>, fd: int, moves: seq<Move>)
    requires |hostname| < 0x1_0000 && |username| < 0x1_0000
    requires PossibleRun(Connected(hostname, username, fd), moves)
    ensures var w := Run(Connected(hostname, username, fd), moves);
            Faithful(w.server.journal.saved, hostname, username, w.client.images) && !w.outcome.Hung?
  {
    ConnectedHolds(hostname, username, fd);
    RunKeepsJoint(Connected(hostname, username, fd), moves);
    NamesKept(Connected(hostname, username, fd), moves);
    SavedFaithful(Run(Connected(hostname, username, fd), moves));
  }

  lemma SavedFaithful(w: World)
    requires JointInv(w)
    ensures Faithful(w.server.journal.saved, w.client.hostname, w.client.username, w.client.images) && !w.outcome.Hung?
  {
    var c := w.client;
    HandledFromOutbox(w);
    if w.server.journal.saved == [] {
      hide HandledInOrder, BytesConserved, RepliesCoalesced, ClientInv;
    } else {
      SavedNeedsImages(w);
      YesWasSaid(w);
      ClientRequestVerdict(c.hostname, c.username, [], []);
      assert !w.outcome.Hung?;
      hide JointInv, MessagesFor, OutboxOf, ReadAuth, ValidName, AuthBody;
      assert w.server.journal.verdicts == [ReadAuth(AuthBody(c.hostname, c.username), [], []).ok];
    }
  }

  /** A saved screenshot is an image of the client, which had a yes before it sent one. */
  lemma SavedNeedsImages(w: World)
    requires JointInv(w) && w.server.journal.saved != []
    ensures w.client.images != [] && w.client.verdict == [YES]
  {
    HandledFromOutbox(w);
    hide StateInv, MessagesFor, OutboxOf, FairClient, ReadAuth, AuthBody;
  }

  lemma {:induction false} NamesKept(w: World, moves: seq<Move>)
    requires PossibleRun(w, moves)
    ensures Run(w, moves).client.hostname == w.client.hostname && Run(w, moves).client.username == w.client.username
    decreases |moves|
  {
    hide OnEvent, ImageFrame, AuthRequest;
    if moves != [] {
      NamesKept(Next(w, moves[0]), moves[1..]);
    }
  }

  /**
   * Nothing gets lost either: when the client is between messages and the pipe to the server is
   * empty, a session still served has handled or queued every message, and holds no odd bytes.
   */
  lemma {:induction false} NothingLeftBehind(hostname: seq<byte>, username: seq<byte>, fd: int, moves: seq<Move>)
    requires |hostname| < 0x1_0000 && |username| < 0x1_0000
    requires PossibleRun(Connected(hostname, username, fd), moves)
    ensures var w := Run(Connected(hostname, username, fd), moves);
            w.outcome.Alive? && w.client.phase.Idle? && w.up == [] ==>
              && w.server.journal.handled + w.server.messages ==
                 MessagesFor(Outbox(hostname, username, w.client.images))
              && Pending(ParserOf(w.server)) == []
  {
    ConnectedHolds(hostname, username, fd);
    RunKeepsJoint(Connected(hostname, username, fd), moves);
    NamesKept(Connected(hostname, username, fd), moves);
    var w := Run(Connected(hostname, username, fd), moves);
    if w.outcome.Alive? && w.client.phase.Idle? && w.up == [] {
      AllDelivered(w);
    }
  }

  /** The items of a stream that a parser has consumed whole are all its items. */
  lemma ConsumedWhole(ms: seq<Outgoing>, consumed: seq<Item>, b: seq<byte>)
    requires Sendable(ms) && ItemsOk(consumed) && HeadOf(b).NeedMore?
    requires Wire(consumed) + b == EncodeAll(ms)
    ensures b == [] && FramesOf(consumed) == MessagesFor(ms)
  {
    ConsumedSoFar(ms, consumed, b);
    assert EncodeAll(ms)[|Wire(consumed) + b|..] == [] && b + [] == b;
    assert Decode(b) == Decoded([], b);
    FramesOfPrefix(ms, consumed);
    assert |ItemsFor(ms)[|consumed|..]| == 0;
    assert MessagesFor(ms)[..|consumed|] == MessagesFor(ms);
  }

  lemma AllDelivered(w: World)
    requires JointInv(w) && w.outcome.Alive? && w.client.phase.Idle? && w.up == []
    ensures w.server.journal.handled + w.server.messages == MessagesFor(OutboxOf(w.client))
    ensures Pending(ParserOf(w.server)) == []
  {
    OutboxSendable(w.client);
    assert w.server.journal.received + [] == w.server.journal.received;
    ConsumedWhole(OutboxOf(w.client), w.server.journal.consumed, Pending(ParserOf(w.server)));
  }

  /** How many readable events there are, if the client makes no move. */
  function Reads(moves: seq<Move>): nat {
    if moves == [] then 0
    else (if moves[0].ServerMoves? && moves[0].ready.readable then 1 else 0) + Reads(moves[1..])
  }

  predicate ClientRests(moves: seq<Move>) {
    forall k :: 0 <= k < |moves| ==> moves[k].ServerMoves?
  }

  lemma OutboxHandles(c: ClientState, k: nat)
    requires k < |MessagesFor(OutboxOf(c))|
    ensures Handles(MessagesFor(OutboxOf(c))[k])
  {
    if k > 0 {
      assert OutboxOf(c)[k] == Outgoing(TYPE_IMAGE, c.images[k - 1]);
    }
  }

  /** All is delivered, and the client does nothing more. */
  ghost predicate Draining(w: World) {
    JointInv(w) && w.outcome.Alive? && w.client.phase.Idle? && w.up == []
  }

  /** With everything delivered, an event brings nothing new, and what is queued is of a known kind. */
  lemma DrainingQueue(w: World, r: Readiness)
    requires Draining(w) && Possible(w, ServerMoves(r))
    ensures r.readable ==> QueueAfter(w.server, r) == w.server.messages
    ensures w.server.messages != [] ==> Handles(w.server.messages[0])
  {
    AllDelivered(w);
    var s := w.server;
    if s.messages != [] {
      OutboxHandles(w.client, |s.journal.handled|);
      assert s.messages[0] == (s.journal.handled + s.messages)[|s.journal.handled|];
    }
    hide JointInv, Handles;
    if r.readable {
      assert Scan([]) == Scanned([], [], Starved) && FramesOf([]) == [];
      hide Scan, FramesOf;
      assert Drain(r.recvs).data == [] && s.messages + [] == s.messages;
      assert Pending(ParserOf(s)) + Drain(r.recvs).data == [];
    }
  }

  /** A readable event of a session with everything delivered takes one message off its queue. */
  lemma DrainingStep(w: World, r: Readiness)
    requires Draining(w) && Possible(w, ServerMoves(r)) && Next(w, ServerMoves(r)).outcome.Alive?
    ensures var v := Next(w, ServerMoves(r));
            && Draining(v) && v.client == w.client
            && |v.server.messages| == |w.server.messages| - if r.readable && w.server.messages != [] then 1 else 0
  {
    ServerMoveKeeps(w, r);
    DrainingQueue(w, r);
    OneMessagePerEvent(w.server, w.mask, r);
    hide JointInv, OnEvent, QueueAfter, Handles, Drain;
  }

  lemma {:induction false} DrainingRun(w: World, moves: seq<Move>)
    requires Draining(w) && PossibleRun(w, moves) && ClientRests(moves) && Run(w, moves).outcome.Alive?
    ensures var v := Run(w, moves);
            && Draining(v) && v.client == w.client
            && |v.server.messages| <=
               if Reads(moves) <= |w.server.messages| then |w.server.messages| - Reads(moves) else 0
    decreases |moves|
  {
    hide Draining, Possible, Next;
    if moves != [] {
      var v := Next(w, moves[0]);
      AliveBefore(v, moves[1..]);
      DrainingStep(w, moves[0].ready);
      DrainingRun(v, moves[1..]);
    }
  }

  lemma {:induction false} AliveBefore(w: World, moves: seq<Move>)
    requires PossibleRun(w, moves) && ClientRests(moves) && Run(w, moves).outcome.Alive?
    ensures w.outcome.Alive?
  {
    hide Next;
    if moves != [] {
      assert moves[0].ServerMoves?;
    }
  }

  /** With nothing queued any more, every image has been saved. */
  lemma AllSaved(w: World)
    requires Draining(w) && w.server.messages == []
    ensures var c := w.client;
            && ValidName(c.hostname) && ValidName(c.username)
            && w.server.journal.saved ==
               seq(|c.images|, j requires 0 <= j < |c.images| => Saved(c.hostname, c.username, c.images[j]))
  {
    var c := w.client;
    AllDelivered(w);
    HandledFromOutbox(w);
    YesWasSaid(w);
    ClientRequestVerdict(c.hostname, c.username, [], []);
    hide JointInv, ReadAuth, ValidName;
    assert |w.server.journal.handled| == |c.images| + 1;
    assert w.server.journal.verdicts == [ReadAuth(AuthBody(c.hostname, c.username), [], []).ok];
  }

  /**
   * And all of it gets saved: once the client is between messages with the pipe empty, as many more
   * readable events as there are messages queued, if the session survives them, leave every image
   * of the client saved under its names, which are valid.
   */
  lemma {:induction false} EverythingSaved(
    hostname: seq<byte>, username: seq<byte>, fd: int, moves: seq<Move>, more: seq<Move>)
    requires |hostname| < 0x1_0000 && |username| < 0x1_0000
    requires PossibleRun(Connected(hostname, username, fd), moves)
    requires var w := Run(Connected(hostname, username, fd), moves);
             && w.outcome.Alive? && w.client.phase.Idle? && w.up == []
             && PossibleRun(w, more) && ClientRests(more) && Reads(more) >= |w.server.messages|
             && Run(w, more).outcome.Alive?
    ensures var w := Run(Connected(hostname, username, fd), moves); var images := w.client.images;
            && ValidName(hostname) && ValidName(username)
            && Run(w, more).server.journal.saved ==
               seq(|images|, j requires 0 <= j < |images| => Saved(hostname, username, images[j]))
  {
    var w0 := Connected(hostname, username, fd);
    var w := Run(w0, moves);
    ConnectedHolds(hostname, username, fd);
    RunKeepsJoint(w0, moves);
    NamesKept(w0, moves);
    assert Draining(w);
    hide JointInv, Draining, PossibleRun, Run, Reads, ClientRests, ValidName;
    DrainingRun(w, more);
    AllSaved(Run(w, more));
  }

  // ---------- In a server with other sessions ----------

  function ReportsIn(moves: seq<Move>): seq<Readiness> {
    if moves == [] then []
    else (if moves[0].ServerMoves? then [moves[0].ready] else []) + ReportsIn(moves[1..])
  }

  /** The server's side of a joint run is a run of one session on the reports it got. */
  lemma {:induction false} ServerSideIsRun(w: World, moves: seq<Move>)
    requires PossibleRun(w, moves)
    ensures var end := Run(w, moves);
            Step(end.server, end.mask, end.outcome) ==
            if w.outcome.Alive? then RunSession(w.server, w.mask, ReportsIn(moves))
            else Step(w.server, w.mask, w.outcome)
    decreases |moves|
  {
    hide OnEvent, React, Enabled, Drain;
    if moves != [] {
      ServerSideIsRun(Next(w, moves[0]), moves[1..]);
      if moves[0].ServerMoves? {
        assert ReportsIn(moves)[0] == moves[0].ready && ReportsIn(moves)[1..] == ReportsIn(moves[1..]);
      } else {
        assert ReportsIn(moves) == ReportsIn(moves[1..]);
      }
    }
  }

  /**
   * In a running server, whatever its other connections do and have done: if a client with these
   * names at the other end explains the reports on a session's own connection since it was
   * accepted, then the session's screenshots are that client's images under its valid names.
   */
  lemma FaithfulAmongOthers(
    listener: int, waits: seq<Servers.WaitAnswer>, fd: int, hostname: seq<byte>, username: seq<byte>)
    returns (k: nat)
    requires Servers.ServeFeasible(Servers.Boot(listener), waits)
    requires Servers.Serve(Servers.Boot(listener), waits).status.Running?
    requires fd in Servers.Serve(Servers.Boot(listener), waits).state.sessions
    requires |hostname| < 0x1_0000 && |username| < 0x1_0000
    ensures ServerLaws.BornAt(listener, ServerLaws.ReportsServed(waits), k, fd)
    ensures var own := ServerLaws.ReportsOf(fd, ServerLaws.ReportsServed(waits)[k + 1..]);
            var saved := Servers.Serve(Servers.Boot(listener), waits).state.sessions[fd].journal.saved;
            forall moves :: PossibleRun(Connected(hostname, username, fd), moves) && ReportsIn(moves) == own ==>
              Faithful(saved, hostname, username, Run(Connected(hostname, username, fd), moves).client.images)
  {
    var own;
    k, own := ServerLaws.EverySessionHasAHistory(listener, waits, fd);
    var saved := Servers.Serve(Servers.Boot(listener), waits).state.sessions[fd].journal.saved;
    forall moves | PossibleRun(Connected(hostname, username, fd), moves) && ReportsIn(moves) == own
      ensures Faithful(saved, hostname, username, Run(Connected(hostname, username, fd), moves).client.images)
    {
      ServerSideIsRun(Connected(hostname, username, fd), moves);
      ImagesFaithful(hostname, username, fd, moves);
    }
  }
}
