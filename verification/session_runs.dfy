/**
 * Runs of one session in which little happens: the working off of a backlog, and a run that files a
 * screenshot under a name that was never valid.
 */
module SessionRuns {
  import opened Bytes
  import opened Framing
  import opened Parsing
  import opened Auth
  import opened Sessions
  import opened SessionLaws

  // ---------- Working off a backlog ----------

  /** Nothing arrives, and nothing complete is pending. */
  predicate Settled(s: State, events: seq<Readiness>) {
    && !HeadOf(Pending(ParserOf(s))).Ready?
    && forall k :: 0 <= k < |events| && events[k].readable ==> Drain(events[k].recvs).data == []
  }

  lemma ReadableLeavesPending(s: State, mask: Mask, r: Readiness)
    requires Drain(r.recvs).data == [] && !HeadOf(Pending(ParserOf(s))).Ready?
    ensures Pending(ParserOf(OnReadable(s, mask, r).state)) == Pending(ParserOf(s))
    ensures QueueAfter(s, r) == s.messages
  {
    var b := Pending(ParserOf(s));
    var t := Receive(s, []);
    assert b + [] == b && Pending(ParserOf(t)) == b;
    assert Scan(b).rest == b && Scan(b).items == [] && FramesOf([]) == [];
    RestingHolds(s.messages + FramesOf([]), b, Scan(b).halt);
    QueueLeavesPending(Parse(t), mask, r);
    hide Scan, HeadOf, Pending, Drain, OnQueue, Resting;
    assert s.messages + [] == s.messages;
  }

  /** Between `s` and `t` the first `n` messages of the queue were handled, and nothing was queued. */
  predicate WorkedOff(s: State, t: State, n: nat) {
    && n <= |s.messages|
    && t.journal.handled == s.journal.handled + s.messages[..n] && t.messages == s.messages[n..]
  }

  lemma WorkedOffTwice(s: State, t: State, u: State, m: nat, n: nat)
    requires WorkedOff(s, t, m) && WorkedOff(t, u, n)
    ensures WorkedOff(s, u, m + n)
  {
    assert s.messages[..m] + s.messages[m..][..n] == s.messages[..m + n];
    Assoc(s.journal.handled, s.messages[..m], s.messages[m..][..n]);
  }

  /** How many messages an event takes off a queue to which it adds none. */
  function Takes(ms: seq<Message>, r: Readiness): nat {
    if r.readable && ms != [] && Handles(ms[0]) then 1 else 0
  }

  lemma OneWorkedOff(s: State, t: State, m: nat)
    requires m == 0 ==> t.messages == s.messages && t.journal.handled == s.journal.handled
    requires m > 0 ==> m == 1 && s.messages != [] && t.messages == s.messages[1..]
                       && t.journal.handled == s.journal.handled + [s.messages[0]]
    ensures WorkedOff(s, t, m)
  {
    assert s.journal.handled + s.messages[..0] == s.journal.handled;
    assert s.messages != [] ==> s.messages[..1] == [s.messages[0]];
  }

  /** One event with nothing new: it takes the front message if it is readable and knows its kind. */
  lemma SettledEvent(s: State, mask: Mask, r: Readiness)
    requires StateInv(s) && OnEvent(s, mask, r).outcome.Alive?
    requires !HeadOf(Pending(ParserOf(s))).Ready? && (r.readable ==> Drain(r.recvs).data == [])
    ensures var t := OnEvent(s, mask, r).state;
            !HeadOf(Pending(ParserOf(t))).Ready? && WorkedOff(s, t, Takes(s.messages, r))
  {
    var w := Before(s, mask, r);
    SendLeavesQueue(s, r.sends);
    OneMessagePerEvent(s, mask, r);
    if r.readable {
      ReadableLeavesPending(s, mask, r);
      ReadableLeavesPending(w.state, w.mask, r);
    }
    hide OnReadable, HeadOf, Pending, Drain, Flush, StateInv, QueueAfter, Handles, WorkedOff;
    OneWorkedOff(s, OnEvent(s, mask, r).state, Takes(s.messages, r));
  }

  /** How many of the events are readable. */
  function Reads(events: seq<Readiness>): nat {
    if events == [] then 0 else (if events[0].readable then 1 else 0) + Reads(events[1..])
  }

  /** How many messages stand before the first of an unknown kind. */
  function KnownAhead(ms: seq<Message>): (n: nat)
    ensures n <= |ms|
    ensures n == |ms| <==> forall k :: 0 <= k < |ms| ==> Handles(ms[k])
  {
    if ms == [] then 0
    else if !Handles(ms[0]) then
      assert !Handles(ms[0]);
      0
    else
      assert forall k :: 1 <= k < |ms| ==> ms[k] == ms[1..][k - 1];
      1 + KnownAhead(ms[1..])
  }

  /** How many messages a run takes off a queue to which it adds none. */
  function TakesInAll(ms: seq<Message>, events: seq<Readiness>): nat {
    Min(Reads(events), KnownAhead(ms))
  }

  lemma TakesNext(ms: seq<Message>, events: seq<Readiness>)
    requires events != []
    ensures var m := Takes(ms, events[0]);
            m <= |ms| && TakesInAll(ms, events) == m + TakesInAll(ms[m..], events[1..])
  {
    assert ms[0..] == ms;
  }

  lemma SettledNext(s: State, mask: Mask, events: seq<Readiness>)
    requires StateInv(s) && events != [] && Settled(s, events) && OnEvent(s, mask, events[0]).outcome.Alive?
    ensures var t := OnEvent(s, mask, events[0]).state;
            && Settled(t, events[1..]) && WorkedOff(s, t, Takes(s.messages, events[0]))
            && TakesInAll(s.messages, events) == Takes(s.messages, events[0]) + TakesInAll(t.messages, events[1..])
  {
    SettledEvent(s, mask, events[0]);
    TakesNext(s.messages, events);
    hide OnEvent, HeadOf, Pending, Drain, TakesInAll, Takes;
  }

  /**
   * With nothing new arriving, a run that the session survives handles one message for each readable
   * event, in order, until the queue is empty or its front is of an unknown kind.
   */
  lemma {:induction false} BacklogWorkedOff(s: State, mask: Mask, events: seq<Readiness>)
    requires StateInv(s) && MaskInv(s, mask) && Settled(s, events)
    requires RunSession(s, mask, events).outcome.Alive?
    ensures WorkedOff(s, RunSession(s, mask, events).state, TakesInAll(s.messages, events))
    decreases |events|
  {
    if events == [] {
      NoneTaken(s);
    } else {
      RunNext(s, mask, events);
      hide StateInv, MaskInv, OnEvent, RunSession, Settled, WorkedOff, Takes, TakesInAll, KnownAhead, Reads;
      var st := OnEvent(s, mask, events[0]);
      EventKeeps(s, mask, events[0]);
      SettledNext(s, mask, events);
      BacklogWorkedOff(st.state, st.mask, events[1..]);
      WorkedOffTwice(s, st.state, RunSession(s, mask, events).state,
                     Takes(s.messages, events[0]), TakesInAll(st.state.messages, events[1..]));
    }
  }

  lemma RunNext(s: State, mask: Mask, events: seq<Readiness>)
    requires events != [] && RunSession(s, mask, events).outcome.Alive?
    ensures var st := OnEvent(s, mask, events[0]);
            st.outcome.Alive? && RunSession(s, mask, events) == RunSession(st.state, st.mask, events[1..])
  {
    hide OnEvent;
  }

  lemma NoneTaken(s: State)
    ensures TakesInAll(s.messages, []) == 0 && WorkedOff(s, s, 0)
  {
    assert s.journal.handled + s.messages[..0] == s.journal.handled && s.messages[0..] == s.messages;
  }

  /** Enough readable events empty the queue if and only if every message in it is of a known kind. */
  lemma BacklogClearsExactlyWhen(s: State, mask: Mask, events: seq<Readiness>)
    requires StateInv(s) && MaskInv(s, mask) && Settled(s, events)
    requires RunSession(s, mask, events).outcome.Alive? && Reads(events) >= |s.messages|
    ensures RunSession(s, mask, events).state.messages == [] <==>
            forall k :: 0 <= k < |s.messages| ==> Handles(s.messages[k])
  {
    BacklogWorkedOff(s, mask, events);
    hide RunSession, StateInv, Handles, Settled;
  }

  // ---------- Names that were never validated ----------

  /** A whole image arrives at a session at rest. */
  lemma ImageArrives(s: State, mask: Mask, image: seq<byte>)
    requires AtRest(s) && 1 <= |image| <= MAX_MESSAGE_SIZE
    ensures OnEvent(s, mask, InputReport([Data(Encode(TYPE_IMAGE, image))], [])).outcome.Alive?
  {
    var b, m := Encode(TYPE_IMAGE, image), MessageOf(TYPE_IMAGE, image);
    var r := InputReport([Data(b)], []);
    EncodedScan(TYPE_IMAGE, image);
    assert |b| > 0 && m.typeVec == [TYPE_IMAGE];
    hide Scan, Encode, MessageOf, OnQueue, Parse;
    DrainOnce(b);
    ArrivesQueued(s, b, m);
    KindsOfQueue(Parse(Receive(s, b)), mask, r);
  }

  /** What one whole message does to the record of handled messages of a session at rest. */
  lemma MessageHandled(s: State, mask: Mask, kind: byte, body: seq<byte>, replySends: seq<SendAnswer>)
    requires StateInv(s) && AtRest(s) && 1 <= |body| <= MAX_MESSAGE_SIZE && (kind == TYPE_AUTH || kind == TYPE_IMAGE)
    requires OnEvent(s, mask, InputReport([Data(Encode(kind, body))], replySends)).outcome.Alive?
    ensures OnEvent(s, mask, InputReport([Data(Encode(kind, body))], replySends)).state.journal.handled ==
            s.journal.handled + [MessageOf(kind, body)]
  {
    var b, m := Encode(kind, body), MessageOf(kind, body);
    var r := InputReport([Data(b)], replySends);
    EncodedScan(kind, body);
    DrainOnce(b);
    FramesOfOne(Frame(m));
    OneMessagePerEvent(s, mask, r);
    assert Handles(m) && Pending(ParserOf(s)) == [] && [] + b == b;
    hide OnEvent, Scan, FramesOf, Encode, MessageOf, Handles, StateInv, Drain, Pending;
    assert QueueAfter(s, r) == [m];
  }

  /** The request and the image of the run below have been handled, in order. */
  lemma RequestThenImage(fd: int, body: seq<byte>, image: seq<byte>)
    requires 1 <= |body| <= MAX_MESSAGE_SIZE && 1 <= |image| <= MAX_MESSAGE_SIZE
    ensures var st := History(fd, [InputReport([Data(Encode(TYPE_AUTH, body))], [Room(1)]),
                                   InputReport([Data(Encode(TYPE_IMAGE, image))], [])]);
            st.outcome.Alive? &&
            st.state.journal.handled == [MessageOf(TYPE_AUTH, body), MessageOf(TYPE_IMAGE, image)]
  {
    var first := InputReport([Data(Encode(TYPE_AUTH, body))], [Room(1)]);
    var second := InputReport([Data(Encode(TYPE_IMAGE, image))], []);
    assert AtRest(Fresh(fd)) && Fresh(fd).journal.handled == [];
    FreshHolds(fd);
    hide OnEvent, Encode, MessageOf, AtRest, Fresh, RunSession, InputReport, StateInv, MaskInv;
    RequestArrives(Fresh(fd), READ_ONLY, body, Room(1));
    MessageHandled(Fresh(fd), READ_ONLY, TYPE_AUTH, body, [Room(1)]);
    var st := OnEvent(Fresh(fd), READ_ONLY, first);
    EventKeeps(Fresh(fd), READ_ONLY, first);
    ImageArrives(st.state, st.mask, image);
    MessageHandled(st.state, st.mask, TYPE_IMAGE, image, []);
    RunOfTwo(Fresh(fd), READ_ONLY, first, second);
  }

  lemma ReplayOfTwo(h: seq<byte>, u: seq<byte>, image: seq<byte>)
    requires |h| < 0x1_0000 && !ValidName(h) && |u| < 0x1_0000
    ensures Replay([MessageOf(TYPE_AUTH, AuthBody(h, u)), MessageOf(TYPE_IMAGE, image)]) ==
            Effects(h, [], [false], [Saved(h, [], image)])
  {
    ClientRequestVerdict(h, u, [], []);
    var request, picture := MessageOf(TYPE_AUTH, AuthBody(h, u)), MessageOf(TYPE_IMAGE, image);
    ReplayNext([], request);
    ReplayNext([request], picture);
    assert Replay([]) == Effects([], [], [], []);
    hide Replay, ReadAuth, AuthBody, ValidName;
    assert [] + [request] == [request] && [request] + [picture] == [request, picture];
    var saved := Saved(h, [], image);
    assert [] + [false] == [false] && [] + [saved] == [saved];
  }

  /**
   * A screenshot can be filed under a name that was never valid: the host name of a refused request
   * is in force when the image behind it is saved.
   */
  lemma SavedUnderInvalidName(fd: int, h: seq<byte>, u: seq<byte>, image: seq<byte>)
    requires |h| < 0x1_0000 && !ValidName(h) && |u| < 0x1_0000 && 1 <= |image| <= MAX_MESSAGE_SIZE
    ensures var s := History(fd, [InputReport([Data(Encode(TYPE_AUTH, AuthBody(h, u)))], [Room(1)]),
                                  InputReport([Data(Encode(TYPE_IMAGE, image))], [])]).state;
            s.journal.verdicts == [false] && s.journal.saved == [Saved(h, [], image)]
  {
    assert 1 <= |AuthBody(h, u)| <= MAX_MESSAGE_SIZE;
    hide History, FramesOf, Decode, Replay, AuthBody, Encode, MessageOf, InputReport, ValidName;
    var events := [InputReport([Data(Encode(TYPE_AUTH, AuthBody(h, u)))], [Room(1)]),
                   InputReport([Data(Encode(TYPE_IMAGE, image))], [])];
    RequestThenImage(fd, AuthBody(h, u), image);
    FifoOverRuns(fd, events);
    ReplayOfTwo(h, u, image);
  }
}
