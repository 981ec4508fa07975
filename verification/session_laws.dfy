/** What every event keeps true of a session, and what follows for whole runs of one session. */
module SessionLaws {
  import opened Bytes
  import opened Framing
  import opened Parsing
  import opened Auth
  import opened Sessions

  // ---------- The socket ----------

  function BytesOf(answers: seq<RecvAnswer>): seq<byte> {
    if answers == [] then []
    else (if answers[0].Data? then answers[0].bytes else []) + BytesOf(answers[1..])
  }

  /**
   * A drain takes every byte up to the first answer that is neither data nor an interruption, and
   * leaves the connection standing exactly if that answer is EAGAIN.
   */
  lemma {:induction false} DrainExactly(before: seq<RecvAnswer>, stop: RecvAnswer, behind: seq<RecvAnswer>)
    requires forall k :: 0 <= k < |before| ==> before[k].RecvInterrupted? || (before[k].Data? && before[k].bytes != [])
    requires stop.RecvAgain? || stop.RecvFailed? || stop == Data([])
    ensures Drain(before + [stop] + behind) == Drained(BytesOf(before), stop.RecvAgain?)
  {
    var all := before + [stop] + behind;
    if before == [] {
      assert all[0] == stop;
    } else {
      assert all[0] == before[0] && all[1..] == before[1..] + [stop] + behind;
      DrainExactly(before[1..], stop, behind);
    }
  }

  function RoomIn(answers: seq<SendAnswer>): nat {
    if answers == [] then 0
    else (if answers[0].Room? then answers[0].k else 0) + RoomIn(answers[1..])
  }

  /**
   * A flush sends as many bytes as there is room for before the first answer that is neither room
   * nor an interruption; it fails exactly if bytes are left and that answer is not EAGAIN.
   */
  lemma {:induction false} FlushExactly(
    response: seq<byte>, before: seq<SendAnswer>, stop: SendAnswer, behind: seq<SendAnswer>)
    requires forall k :: 0 <= k < |before| ==> before[k].SendInterrupted? || (before[k].Room? && before[k].k > 0)
    requires stop.SendAgain? || stop.SendFailed? || stop == Room(0)
    ensures var n := RoomIn(before);
            Flush(response, before + [stop] + behind) ==
            if n >= |response| then Flushed(response, [], true)
            else Flushed(response[..n], response[n..], stop.SendAgain?)
    decreases |before|
  {
    var all := before + [stop] + behind;
    if response != [] && before == [] {
      assert all[0] == stop && response[0..] == response;
    } else if response != [] {
      assert all[0] == before[0] && all[1..] == before[1..] + [stop] + behind;
      if before[0].Room? {
        var m := Min(before[0].k, |response|);
        FlushExactly(response[m..], before[1..], stop, behind);
        SplitTwice(response, m, RoomIn(before[1..]));
      } else {
        FlushExactly(response, before[1..], stop, behind);
      }
    }
  }

  lemma SplitTwice(s: seq<byte>, m: nat, n: nat)
    requires m <= |s|
    ensures s[..m] + s[m..] == s
    ensures m + n <= |s| ==> s[..m] + s[m..][..n] == s[..m + n] && s[m..][n..] == s[m + n..]
  {
  }

  /** An interruption of `recv`, wherever it comes, makes no difference to a drain. */
  lemma {:induction false} RecvInterruptionsVanish(xs: seq<RecvAnswer>, ys: seq<RecvAnswer>)
    ensures Drain(xs + [RecvInterrupted] + ys) == Drain(xs + ys)
  {
    var all := xs + [RecvInterrupted] + ys;
    if xs == [] {
      assert all[0] == RecvInterrupted && all[1..] == ys == xs + ys;
    } else {
      assert all[0] == xs[0] == (xs + ys)[0];
      assert all[1..] == xs[1..] + [RecvInterrupted] + ys && (xs + ys)[1..] == xs[1..] + ys;
      RecvInterruptionsVanish(xs[1..], ys);
    }
  }

  /** An interruption of `send`, wherever it comes, makes no difference to a flush. */
  lemma {:induction false} SendInterruptionsVanish(response: seq<byte>, xs: seq<SendAnswer>, ys: seq<SendAnswer>)
    ensures Flush(response, xs + [SendInterrupted] + ys) == Flush(response, xs + ys)
    decreases |xs|
  {
    var all := xs + [SendInterrupted] + ys;
    if xs == [] {
      assert all[0] == SendInterrupted && all[1..] == ys == xs + ys;
    } else {
      assert all[0] == xs[0] == (xs + ys)[0];
      assert all[1..] == xs[1..] + [SendInterrupted] + ys && (xs + ys)[1..] == xs[1..] + ys;
      if response != [] && xs[0].Room? {
        SendInterruptionsVanish(response[Min(xs[0].k, |response|)..], xs[1..], ys);
      } else {
        SendInterruptionsVanish(response, xs[1..], ys);
      }
    }
  }

  // ---------- What the handled messages amount to ----------

  /** The names in force, the verdicts given and the screenshots saved. */
  datatype Effects = Effects(hostname: seq<byte>, username: seq<byte>, verdicts: seq<bool>, saved: seq<Saved>)

  function Apply(e: Effects, m: Message): Effects {
    if m.typeVec == [TYPE_AUTH] then
      var r := ReadAuth(m.bytesVec, e.hostname, e.username);
      Effects(r.hostname, r.username, e.verdicts + [r.ok], e.saved)
    else if m.typeVec == [TYPE_IMAGE] then
      e.(saved := e.saved + [Saved(e.hostname, e.username, m.bytesVec)])
    else e
  }

  /** Handling the messages one by one, with no buffers and no events. */
  function Replay(ms: seq<Message>): Effects {
    if ms == [] then Effects([], [], [], []) else Apply(Replay(ms[..|ms| - 1]), ms[|ms| - 1])
  }

  lemma ReplayNext(ms: seq<Message>, m: Message)
    ensures Replay(ms + [m]) == Apply(Replay(ms), m)
  {
    assert (ms + [m])[..|ms|] == ms;
  }

  predicate ValidNames(e: Effects) {
    ValidName(e.hostname) && ValidName(e.username)
  }

  /** Whether the reading of a request leaves valid names in force, if it refuses the request. */
  predicate RefusedButValid(body: seq<byte>, hostname: seq<byte>, username: seq<byte>) {
    if ReadName(body).Short? then ValidName(hostname) && ValidName(username)
    else
      && ValidName(ReadName(body).name)
      && ReadName(ReadName(body).left).Short? && ValidName(username)
  }

  /**
   * Names are stored before they are judged.  So the names in force after one more message are
   * valid exactly if it is no request and they were before, or a request that is accepted, or one
   * that ends before it stores an invalid name and leaves only valid ones in place.
   */
  lemma NamesValidExactlyWhen(e: Effects, m: Message)
    ensures ValidNames(Apply(e, m)) <==>
            if m.typeVec != [TYPE_AUTH] then ValidNames(e)
            else || ReadAuth(m.bytesVec, e.hostname, e.username).ok
                 || RefusedButValid(m.bytesVec, e.hostname, e.username)
  {
  }

  /** As long as the latest verdict is a yes, the names in force are valid. */
  lemma {:induction false} YesKeepsNamesValid(ms: seq<Message>)
    ensures var e := Replay(ms); e.verdicts != [] && e.verdicts[|e.verdicts| - 1] ==> ValidNames(e)
    decreases |ms|
  {
    if ms != [] {
      var front, last := ms[..|ms| - 1], ms[|ms| - 1];
      YesKeepsNamesValid(front);
      NamesValidExactlyWhen(Replay(front), last);
    }
  }

  function EffectsOf(s: State): Effects {
    Effects(s.hostname, s.username, s.journal.verdicts, s.journal.saved)
  }

  // ---------- Replies ----------

  /** `w` is what is left of the verdicts `v` after dropping some of them. */
  ghost predicate Thinned(w: seq<byte>, v: seq<bool>)
    decreases |v|
  {
    w == [] ||
    (v != [] &&
     ((w[|w| - 1] == VerdictByte(v[|v| - 1]) && Thinned(w[..|w| - 1], v[..|v| - 1])) || Thinned(w, v[..|v| - 1])))
  }

  /** A subsequence of the verdicts that ends in the latest one. */
  ghost predicate Coalesced(w: seq<byte>, v: seq<bool>) {
    if v == [] then w == []
    else w != [] && w[|w| - 1] == VerdictByte(v[|v| - 1]) && Thinned(w[..|w| - 1], v[..|v| - 1])
  }

  lemma {:induction false} ThinnedIsShorter(w: seq<byte>, v: seq<bool>)
    requires Thinned(w, v)
    ensures |w| <= |v|
    ensures forall b :: b in w ==> b == YES || b == NO
    ensures YES in w ==> true in v
    decreases |v|
  {
    if w != [] {
      var w', v' := w[..|w| - 1], v[..|v| - 1];
      assert w == w' + [w[|w| - 1]];
      assert v == v' + [v[|v| - 1]];
      if w[|w| - 1] == VerdictByte(v[|v| - 1]) && Thinned(w', v') {
        ThinnedIsShorter(w', v');
      } else {
        ThinnedIsShorter(w, v');
      }
    }
  }

  lemma CoalescedIsThinned(w: seq<byte>, v: seq<bool>)
    requires Coalesced(w, v)
    ensures Thinned(w, v)
  {
  }

  /** A new verdict goes behind the bytes sent, in place of a reply still waiting. */
  lemma CoalesceNext(sent: seq<byte>, response: seq<byte>, v: seq<bool>, ok: bool)
    requires |response| <= 1 && Coalesced(sent + response, v)
    ensures Coalesced(sent + [VerdictByte(ok)], v + [ok])
  {
    assert (v + [ok])[..|v|] == v;
    assert (sent + [VerdictByte(ok)])[..|sent|] == sent;
    if response == [] {
      assert sent + response == sent;
      CoalescedIsThinned(sent, v);
    } else {
      assert (sent + response)[..|sent|] == sent;
    }
  }

  // ---------- The invariant ----------

  /** Every byte received is in an item consumed or pending, in order. */
  predicate BytesConserved(s: State) {
    && Shape(ParserOf(s))
    && ItemsOk(s.journal.consumed)
    && s.journal.received == Wire(s.journal.consumed) + Pending(ParserOf(s))
  }

  /** The messages parsed are the messages handled, then the messages waiting. */
  predicate HandledInOrder(s: State) {
    && FramesOf(s.journal.consumed) == s.journal.handled + s.messages
    && EffectsOf(s) == Replay(s.journal.handled)
  }

  ghost predicate RepliesCoalesced(s: State) {
    |s.response| <= 1 && Coalesced(s.journal.sent + s.response, s.journal.verdicts)
  }

  ghost predicate StateInv(s: State) {
    BytesConserved(s) && HandledInOrder(s) && RepliesCoalesced(s)
  }

  /** No reply waits for a writability event that is not asked for. */
  predicate MaskInv(s: State, mask: Mask) {
    mask.readable && (s.response != [] ==> mask.writable)
  }

  lemma FreshHolds(fd: int)
    ensures StateInv(Fresh(fd)) && MaskInv(Fresh(fd), READ_ONLY)
  {
  }

  lemma ReceiveConserves(s: State, data: seq<byte>)
    requires BytesConserved(s)
    ensures BytesConserved(Receive(s, data))
  {
    assert Pending(ParserOf(Receive(s, data))) == Pending(ParserOf(s)) + data;
    Assoc(Wire(s.journal.consumed), Pending(ParserOf(s)), data);
  }

  lemma ReceiveKeeps(s: State, data: seq<byte>)
    requires StateInv(s)
    ensures StateInv(Receive(s, data))
  {
    ReceiveConserves(s, data);
    assert RepliesCoalesced(Receive(s, data));
  }

  lemma ParseConserves(s: State)
    requires BytesConserved(s)
    ensures BytesConserved(Parse(s))
  {
    var b := Pending(ParserOf(s));
    var sc := Scan(b);
    ScanConserves(b);
    RestingHolds(s.messages + FramesOf(sc.items), sc.rest, sc.halt);
    WireAppend(s.journal.consumed, sc.items);
    Assoc(Wire(s.journal.consumed), Wire(sc.items), sc.rest);
  }

  lemma ParseKeeps(s: State)
    requires StateInv(s)
    ensures StateInv(Parse(s))
  {
    ParseConserves(s);
    var items := Scan(Pending(ParserOf(s))).items;
    FramesAppend(s.journal.consumed, items);
    Assoc(s.journal.handled, s.messages, FramesOf(items));
  }

  lemma SendKeeps(s: State, answers: seq<SendAnswer>)
    requires StateInv(s)
    ensures StateInv(Send(s, answers))
    ensures |Send(s, answers).response| <= |s.response|
  {
    var f := Flush(s.response, answers);
    FlushConserves(s.response, answers);
    Assoc(s.journal.sent, f.sent, f.left);
    assert |f.sent + f.left| == |f.sent| + |f.left|;
  }

  lemma TailWellFormed(front: seq<Message>, back: seq<Message>)
    requires forall k :: 0 <= k < |front + back| ==> WellFormed((front + back)[k])
    ensures forall k :: 0 <= k < |back| ==> WellFormed(back[k])
  {
    hide WellFormed;
    forall k | 0 <= k < |back| ensures WellFormed(back[k]) {
      assert back[k] == (front + back)[|front| + k];
    }
  }

  lemma {:induction false} QueueWellFormed(s: State)
    requires BytesConserved(s) && HandledInOrder(s)
    ensures forall k :: 0 <= k < |s.messages| ==> WellFormed(s.messages[k])
  {
    FramesWellFormed(s.journal.consumed);
    hide FramesOf, WellFormed;
    TailWellFormed(s.journal.handled, s.messages);
  }

  lemma TakeKeepsOrder(s: State, t: State)
    requires HandledInOrder(s) && s.messages != []
    requires t.messages == s.messages[1..] && t.journal.consumed == s.journal.consumed
    requires t.journal.handled == s.journal.handled + [s.messages[0]]
    requires EffectsOf(t) == Apply(EffectsOf(s), s.messages[0])
    ensures HandledInOrder(t)
  {
    ReplayNext(s.journal.handled, s.messages[0]);
    Assoc(s.journal.handled, [s.messages[0]], s.messages[1..]);
    assert [s.messages[0]] + s.messages[1..] == s.messages;
  }

  lemma AuthKeeps(s: State)
    requires StateInv(s) && s.messages != [] && s.messages[0].typeVec == [TYPE_AUTH]
    ensures StateInv(Reply(TakeAuth(s), Judge(s).ok))
  {
    var t := TakeAuth(s);
    var ok := Judge(s).ok;
    TakeKeepsOrder(s, t);
    CoalesceNext(s.journal.sent, s.response, s.journal.verdicts, ok);
    assert Reply(t, ok).response == [VerdictByte(ok)];
    assert Pending(ParserOf(Reply(t, ok))) == Pending(ParserOf(s));
  }

  lemma ImageKeeps(s: State)
    requires StateInv(s) && s.messages != [] && s.messages[0].typeVec == [TYPE_IMAGE]
    ensures StateInv(TakeImage(s))
  {
    TakeKeepsOrder(s, TakeImage(s));
  }

  lemma OnAuthKeeps(s: State, mask: Mask, r: Readiness)
    requires StateInv(s) && mask.readable && s.messages != [] && s.messages[0].typeVec == [TYPE_AUTH]
    requires MaskInv(s, mask)
    ensures var st := OnAuth(s, mask, r);
            && StateInv(st.state)
            && (st.outcome.Alive? ==> MaskInv(st.state, st.mask))
            && (st.outcome.Threw? ==> !r.armOk)
            && !st.outcome.Hung?
  {
    AuthKeeps(s);
    SendKeeps(Reply(TakeAuth(s), Judge(s).ok), r.replySends);
  }

  lemma KindsOfQueue(s: State, mask: Mask, r: Readiness)
    requires s.messages != [] && |s.messages[0].typeVec| == 1
    ensures OnQueue(s, mask, r) ==
            if s.messages[0].typeVec == [TYPE_AUTH] then OnAuth(s, mask, r)
            else if s.messages[0].typeVec == [TYPE_IMAGE] then Step(TakeImage(s), mask, Alive)
            else Step(s, mask, Alive)
  {
  }

  lemma QueueKeeps(s: State, mask: Mask, r: Readiness)
    requires StateInv(s) && MaskInv(s, mask)
    ensures var st := OnQueue(s, mask, r);
            && StateInv(st.state)
            && (st.outcome.Alive? ==> MaskInv(st.state, st.mask))
            && (st.outcome.Threw? ==> !r.armOk)
            && !st.outcome.Hung?
  {
    if s.messages != [] {
      QueueWellFormed(s);
      KindsOfQueue(s, mask, r);
      if s.messages[0].typeVec == [TYPE_AUTH] {
        OnAuthKeeps(s, mask, r);
      } else if s.messages[0].typeVec == [TYPE_IMAGE] {
        ImageKeeps(s);
      }
    }
  }

  lemma ReadableKeeps(s: State, mask: Mask, r: Readiness)
    requires StateInv(s) && MaskInv(s, mask)
    ensures var st := OnReadable(s, mask, r);
            && StateInv(st.state)
            && (st.outcome.Alive? ==> MaskInv(st.state, st.mask))
            && (st.outcome.Threw? ==> !r.armOk)
  {
    var t := Receive(s, Drain(r.recvs).data);
    ReceiveKeeps(s, Drain(r.recvs).data);
    ParseKeeps(t);
    QueueKeeps(Parse(t), mask, r);
  }

  /**
   * Whatever the kernel answers, an event keeps the bookkeeping of the session; if the session
   * survives, it keeps asking for input, and for writability while a reply waits; and the event
   * loop is left by an exception only when the kernel refuses a change of interest.
   */
  lemma EventKeeps(s: State, mask: Mask, r: Readiness)
    requires StateInv(s) && MaskInv(s, mask)
    ensures var st := OnEvent(s, mask, r);
            && StateInv(st.state)
            && (st.outcome.Alive? ==> MaskInv(st.state, st.mask))
            && (st.outcome.Threw? ==> !r.armOk || !r.disarmOk)
            && (r.error ==> st == Step(s, mask, Closing))
  {
    SendKeeps(s, r.sends);
    var w := if r.writable then OnWritable(s, mask, r) else Step(s, mask, Alive);
    if w.outcome.Alive? {
      ReadableKeeps(w.state, w.mask, r);
    }
  }

  // ---------- Runs of one session ----------

  function RunSession(s: State, mask: Mask, events: seq<Readiness>): Step
    decreases |events|
  {
    if events == [] then Step(s, mask, Alive)
    else
      var st := OnEvent(s, mask, events[0]);
      if st.outcome.Alive? then RunSession(st.state, st.mask, events[1..]) else st
  }

  lemma {:induction false} RunKeeps(s: State, mask: Mask, events: seq<Readiness>)
    requires StateInv(s) && MaskInv(s, mask)
    ensures var st := RunSession(s, mask, events);
            StateInv(st.state) && (st.outcome.Alive? ==> MaskInv(st.state, st.mask))
    decreases |events|
  {
    if events != [] {
      EventKeeps(s, mask, events[0]);
      var st := OnEvent(s, mask, events[0]);
      if st.outcome.Alive? {
        RunKeeps(st.state, st.mask, events[1..]);
      }
    }
  }

  /** The state and outcome of a connection after some events. */
  function History(fd: int, events: seq<Readiness>): Step {
    RunSession(Fresh(fd), READ_ONLY, events)
  }

  lemma HistoryHolds(fd: int, events: seq<Readiness>)
    ensures var st := History(fd, events);
            StateInv(st.state) && (st.outcome.Alive? ==> MaskInv(st.state, st.mask))
  {
    FreshHolds(fd);
    RunKeeps(Fresh(fd), READ_ONLY, events);
  }

  /**
   * Conservation: in every run, however the bytes arrived, what was consumed followed by the
   * decoding of what is pending is the decoding of everything received.
   */
  lemma ConservationOverRuns(fd: int, events: seq<Readiness>)
    ensures var s := History(fd, events).state; var d := Decode(Pending(ParserOf(s)));
            && Wire(s.journal.consumed) + Pending(ParserOf(s)) == s.journal.received
            && Decode(s.journal.received) == Decoded(s.journal.consumed + d.items, d.rest)
  {
    HistoryHolds(fd, events);
    var s := History(fd, events).state;
    DecodeWire(s.journal.consumed, Pending(ParserOf(s)));
  }

  /**
   * In every run the messages handled are a prefix of those parsed, which are a prefix of those
   * in the bytes received, and every effect of the session is that of handling them in order.
   */
  lemma FifoOverRuns(fd: int, events: seq<Readiness>)
    ensures var s := History(fd, events).state;
            && s.journal.handled <= FramesOf(s.journal.consumed) <= FramesOf(Decode(s.journal.received).items)
            && s.messages == FramesOf(s.journal.consumed)[|s.journal.handled|..]
            && EffectsOf(s) == Replay(s.journal.handled)
  {
    HistoryHolds(fd, events);
    ConservationOverRuns(fd, events);
    var s := History(fd, events).state;
    FramesAppend(s.journal.consumed, Decode(Pending(ParserOf(s))).items);
  }

  /**
   * In every run the half-built message never holds a part of a field or of a body, and every
   * queued message has one type byte, four size bytes and a body of the declared size within limits.
   */
  lemma ShapesOverRuns(fd: int, events: seq<Readiness>)
    ensures var s := History(fd, events).state;
            Shape(ParserOf(s)) && forall k :: 0 <= k < |s.messages| ==> WellFormed(s.messages[k])
  {
    HistoryHolds(fd, events);
    QueueWellFormed(History(fd, events).state);
  }

  // ---------- The queue ----------

  predicate Handles(m: Message) {
    m.typeVec == [TYPE_AUTH] || m.typeVec == [TYPE_IMAGE]
  }

  /** The queue after the messages that arrive with a readable event are parsed. */
  function QueueAfter(s: State, r: Readiness): seq<Message> {
    s.messages + FramesOf(Scan(Pending(ParserOf(s)) + Drain(r.recvs).data).items)
  }

  /** The front message is taken if it is of a known kind, whatever becomes of the reply. */
  lemma QueueTakesFront(s: State, mask: Mask, r: Readiness)
    requires s.messages != [] ==> |s.messages[0].typeVec| == 1
    ensures var t := OnQueue(s, mask, r).state;
            && t.journal.consumed == s.journal.consumed
            && !OnQueue(s, mask, r).outcome.Hung?
            && if s.messages != [] && Handles(s.messages[0])
               then t.messages == s.messages[1..] && t.journal.handled == s.journal.handled + [s.messages[0]]
               else t.messages == s.messages && t.journal.handled == s.journal.handled
  {
    if s.messages != [] {
      KindsOfQueue(s, mask, r);
    }
  }

  lemma FrontIsTyped(s: State)
    requires StateInv(s)
    ensures s.messages != [] ==> |s.messages[0].typeVec| == 1
  {
    QueueWellFormed(s);
  }

  lemma ParsedQueue(s: State, r: Readiness)
    ensures var t := Receive(s, Drain(r.recvs).data);
            && Parse(t).messages == QueueAfter(s, r)
            && Parse(t).journal.handled == s.journal.handled
            && HaltOf(ParserOf(t)) == Scan(Pending(ParserOf(s)) + Drain(r.recvs).data).halt
  {
    assert Pending(ParserOf(Receive(s, Drain(r.recvs).data))) == Pending(ParserOf(s)) + Drain(r.recvs).data;
  }

  lemma ReadableTakesFront(s: State, mask: Mask, r: Readiness)
    requires StateInv(s) && Drain(r.recvs).alive
    ensures var st := OnReadable(s, mask, r); var q := QueueAfter(s, r);
            if !st.outcome.Hung? && q != [] && Handles(q[0])
            then st.state.messages == q[1..] && st.state.journal.handled == s.journal.handled + [q[0]]
            else st.state.messages == q && st.state.journal.handled == s.journal.handled
    ensures OnReadable(s, mask, r).outcome.Hung? <==> Scan(Pending(ParserOf(s)) + Drain(r.recvs).data).halt.Spinning?
  {
    var t := Receive(s, Drain(r.recvs).data);
    ReceiveKeeps(s, Drain(r.recvs).data);
    ParseKeeps(t);
    FrontIsTyped(Parse(t));
    ParsedQueue(s, r);
    QueueTakesFront(Parse(t), mask, r);
  }

  lemma SendLeavesQueue(s: State, answers: seq<SendAnswer>)
    ensures var t := Send(s, answers);
            && ParserOf(t) == ParserOf(s)
            && t.journal.handled == s.journal.handled && t.journal.consumed == s.journal.consumed
  {
  }

  /** The first half of an event: the reply still waiting, if the event reports room for it. */
  function Before(s: State, mask: Mask, r: Readiness): Step {
    if r.writable then OnWritable(s, mask, r) else Step(s, mask, Alive)
  }

  /**
   * A readable event that the session survives handles the front message of the queue if it is of
   * a known kind, and no message otherwise; an event that is not readable handles none.
   */
  lemma OneMessagePerEvent(s: State, mask: Mask, r: Readiness)
    requires StateInv(s) && OnEvent(s, mask, r).outcome.Alive?
    ensures var t := OnEvent(s, mask, r).state; var q := QueueAfter(s, r);
            if r.readable && q != [] && Handles(q[0])
            then t.messages == q[1..] && t.journal.handled == s.journal.handled + [q[0]]
            else t.messages == (if r.readable then q else s.messages) && t.journal.handled == s.journal.handled
  {
    var w := Before(s, mask, r);
    SendKeeps(s, r.sends);
    SendLeavesQueue(s, r.sends);
    if r.readable {
      ReadableTakesFront(w.state, w.mask, r);
    }
  }

  /**
   * Once a message of an unknown kind is at the front of the queue, no continuation of the run
   * handles any message, and it stays at the front.
   */
  lemma {:induction false} UnknownKindBlocks(s: State, mask: Mask, events: seq<Readiness>)
    requires StateInv(s) && MaskInv(s, mask)
    requires s.messages != [] && !Handles(s.messages[0])
    ensures var t := RunSession(s, mask, events).state;
            t.journal.handled == s.journal.handled && s.messages <= t.messages
    decreases |events|
  {
    if events != [] {
      var st := OnEvent(s, mask, events[0]);
      EventKeeps(s, mask, events[0]);
      UnknownKindStays(s, mask, events[0]);
      if st.outcome.Alive? {
        UnknownKindBlocks(st.state, st.mask, events[1..]);
      }
    }
  }

  lemma UnknownKindStays(s: State, mask: Mask, r: Readiness)
    requires StateInv(s)
    requires s.messages != [] && !Handles(s.messages[0])
    ensures var t := OnEvent(s, mask, r).state;
            t.journal.handled == s.journal.handled && s.messages <= t.messages
  {
    var w := Before(s, mask, r);
    SendKeeps(s, r.sends);
    SendLeavesQueue(s, r.sends);
    if w.outcome.Alive? && r.readable && Drain(r.recvs).alive {
      ReadableTakesFront(w.state, w.mask, r);
    }
  }

  lemma QueueLeavesPending(s: State, mask: Mask, r: Readiness)
    ensures Pending(ParserOf(OnQueue(s, mask, r).state)) == Pending(ParserOf(s))
  {
    hide ReadAuth, Flush;
  }

  lemma QueueConsumesNone(s: State, mask: Mask, r: Readiness)
    ensures OnQueue(s, mask, r).state.journal.consumed == s.journal.consumed
  {
    hide ReadAuth, Flush;
  }

  lemma ReadableConsumes(s: State, mask: Mask, r: Readiness)
    ensures !Drain(r.recvs).alive ==>
              OnReadable(s, mask, r).state.messages == s.messages
              && OnReadable(s, mask, r).state.journal.handled == s.journal.handled
    ensures var t := OnReadable(s, mask, r).state; var d := Drain(r.recvs);
            t.journal.consumed == s.journal.consumed +
            if d.alive then Scan(Pending(ParserOf(s)) + d.data).items else []
  {
    var d := Drain(r.recvs);
    var t := Receive(s, d.data);
    assert Pending(ParserOf(t)) == Pending(ParserOf(s)) + d.data;
    QueueConsumesNone(Parse(t), mask, r);
    hide OnQueue, Scan, Drain, Pending, ParsedTo;
    assert s.journal.consumed + [] == s.journal.consumed;
  }

  /**
   * With something complete among the pending and the arriving bytes, an event parses it exactly if
   * it gets as far as reading and the drain ends in EAGAIN.  So end of file or an error behind the
   * data discards that data.
   */
  lemma ParsedExactlyWhen(s: State, mask: Mask, r: Readiness)
    requires Scan(Pending(ParserOf(s)) + Drain(r.recvs).data).items != []
    ensures var items := Scan(Pending(ParserOf(s)) + Drain(r.recvs).data).items;
            var t := OnEvent(s, mask, r).state;
            && (t.journal.consumed == s.journal.consumed + items
                <==> !r.error && r.readable && Before(s, mask, r).outcome.Alive? && Drain(r.recvs).alive)
            && (t.journal.consumed != s.journal.consumed + items ==>
                  t.journal.consumed == s.journal.consumed
                  && t.messages == s.messages && t.journal.handled == s.journal.handled)
  {
    var w := Before(s, mask, r);
    SendLeavesQueue(s, r.sends);
    ReadableConsumes(w.state, w.mask, r);
    hide OnReadable, Scan, Drain, Pending, Flush;
    assert s.journal.consumed + [] == s.journal.consumed;
    assert |s.journal.consumed + Scan(Pending(ParserOf(s)) + Drain(r.recvs).data).items| > |s.journal.consumed|;
  }

  /** What a client's message is to the parser of a session with nothing pending. */
  lemma EncodedScan(kind: byte, body: seq<byte>)
    requires 1 <= |body| <= MAX_MESSAGE_SIZE
    ensures Scan(Encode(kind, body)) == Scanned([Frame(MessageOf(kind, body))], [], Starved)
  {
    var i := Frame(MessageOf(kind, body));
    EncodedHead(kind, body);
    ScanFrame(MessageOf(kind, body), []);
    assert Scan([]) == Scanned([], [], Starved);
    assert ItemBytes(i) + [] == Encode(kind, body) && [i] + [] == [i];
  }

  /** A report that there is input, and no failure of anything else. */
  function InputReport(recvs: seq<RecvAnswer>, replySends: seq<SendAnswer>): Readiness {
    Readiness(false, false, true, [], true, recvs, replySends, true)
  }

  /** A whole message with end of file right behind it is received, and lost. */
  lemma MessageLostAtEof(fd: int, kind: byte, body: seq<byte>)
    requires 1 <= |body| <= MAX_MESSAGE_SIZE
    ensures var st := History(fd, [InputReport([Data(Encode(kind, body)), Data([])], [])]); var j := st.state.journal;
            && st.outcome.Closing?
            && Decode(j.received).items == [Frame(MessageOf(kind, body))]
            && j.consumed == [] && st.state.messages == [] && j.handled == []
  {
    var b := Encode(kind, body);
    var recvs := [Data(b), Data([])];
    assert recvs[1..] == [Data([])];
    assert Drain(recvs) == Drained(b, false);
    EncodedScan(kind, body);
    EncodedHead(kind, body);
    DecodeItem(Frame(MessageOf(kind, body)), []);
    assert ItemBytes(Frame(MessageOf(kind, body))) + [] == b && [] + b == b;
    assert Decode([]) == Decoded([], []);
    hide Scan, Decode, Encode, MessageOf, HeadOf;
  }

  /**
   * An event leaves the server hung exactly when the session is still alive to be read and a
   * zero-length header is then reached.
   */
  lemma HangsExactlyWhen(s: State, mask: Mask, r: Readiness)
    requires StateInv(s)
    ensures OnEvent(s, mask, r).outcome.Hung?
       <==> && r.readable && !r.error && Before(s, mask, r).outcome.Alive?
            && Drain(r.recvs).alive
            && Scan(Pending(ParserOf(s)) + Drain(r.recvs).data).halt.Spinning?
  {
    var w := Before(s, mask, r);
    SendKeeps(s, r.sends);
    SendLeavesQueue(s, r.sends);
    if w.outcome.Alive? && r.readable && Drain(r.recvs).alive {
      ReadableTakesFront(w.state, w.mask, r);
    }
  }

  lemma {:induction false} OneByteFlush(b: byte, c: byte, answers: seq<SendAnswer>)
    ensures Flush([b], answers).alive == Flush([c], answers).alive
    ensures Flush([b], answers).left == [] <==> Flush([c], answers).left == []
    decreases |answers|
  {
    if answers != [] && answers[0].SendInterrupted? {
      OneByteFlush(b, c, answers[1..]);
    } else if answers != [] && answers[0].Room? && answers[0].k > 0 {
      assert [b][1..] == [] && [c][1..] == [];
    }
  }

  /** Whether the kernel's answers to a one-byte reply leave the connection standing. */
  predicate ReplySurvives(answers: seq<SendAnswer>) {
    Flush([YES], answers).alive
  }

  lemma QueueClosesExactlyWhen(s: State, mask: Mask, r: Readiness)
    requires |s.response| <= 1 && (s.messages != [] ==> |s.messages[0].typeVec| == 1)
    ensures OnQueue(s, mask, r).outcome.Closing?
       <==> s.messages != [] && s.messages[0].typeVec == [TYPE_AUTH] && !ReplySurvives(r.replySends)
  {
    if s.messages != [] {
      KindsOfQueue(s, mask, r);
      var t := Reply(TakeAuth(s), Judge(s).ok);
      assert t.response == [VerdictByte(Judge(s).ok)];
      OneByteFlush(t.response[0], YES, r.replySends);
    }
  }

  /**
   * An event closes the session exactly if it reports an error, or a waiting reply cannot be sent,
   * or the drain meets end of file or an error, or the reply to a request just handled cannot be
   * sent.
   */
  lemma ClosesExactlyWhen(s: State, mask: Mask, r: Readiness)
    requires StateInv(s)
    ensures OnEvent(s, mask, r).outcome.Closing?
       <==> || r.error
            || (r.writable && !Flush(s.response, r.sends).alive)
            || (r.readable && Before(s, mask, r).outcome.Alive? && !Drain(r.recvs).alive)
            || (r.readable && Before(s, mask, r).outcome.Alive? && Drain(r.recvs).alive
                && !Scan(Pending(ParserOf(s)) + Drain(r.recvs).data).halt.Spinning?
                && QueueAfter(s, r) != [] && QueueAfter(s, r)[0].typeVec == [TYPE_AUTH]
                && !ReplySurvives(r.replySends))
  {
    var w := Before(s, mask, r);
    SendKeeps(s, r.sends);
    SendLeavesQueue(s, r.sends);
    if w.outcome.Alive? && r.readable && Drain(r.recvs).alive {
      ReadableClosesExactlyWhen(w.state, w.mask, r);
    }
    hide Flush, Drain, Scan, Pending, StateInv, OnQueue, Parse;
  }

  lemma ReadableClosesExactlyWhen(s: State, mask: Mask, r: Readiness)
    requires StateInv(s) && Drain(r.recvs).alive
    ensures OnReadable(s, mask, r).outcome.Closing?
       <==> && !Scan(Pending(ParserOf(s)) + Drain(r.recvs).data).halt.Spinning?
            && QueueAfter(s, r) != [] && QueueAfter(s, r)[0].typeVec == [TYPE_AUTH]
            && !ReplySurvives(r.replySends)
  {
    var t := Receive(s, Drain(r.recvs).data);
    ReceiveKeeps(s, Drain(r.recvs).data);
    ParseKeeps(t);
    FrontIsTyped(Parse(t));
    ParsedQueue(s, r);
    QueueClosesExactlyWhen(Parse(t), mask, r);
    hide Flush, Drain, Scan, Pending, StateInv, OnQueue, Parse;
  }

  // ---------- When an event throws ----------

  /** A one-byte reply stays behind on a standing connection, and epoll refuses to ask for room. */
  predicate ReplyUnarmed(r: Readiness) {
    Flush([YES], r.replySends).alive && Flush([YES], r.replySends).left != [] && !r.armOk
  }

  /** What of the reply and of epoll, of the bytes and of the queue, makes an event throw. */
  predicate Throws(s: State, r: Readiness) {
    var f := Flush(s.response, r.sends);
    && !r.error
    && ((r.writable && f.alive && f.left == [] && !r.disarmOk)
        || (&& r.readable && (r.writable ==> f.alive && (f.left != [] || r.disarmOk))
            && Drain(r.recvs).alive
            && !Scan(Pending(ParserOf(s)) + Drain(r.recvs).data).halt.Spinning?
            && QueueAfter(s, r) != [] && QueueAfter(s, r)[0].typeVec == [TYPE_AUTH]
            && ReplyUnarmed(r)))
  }

  lemma QueueThrowsExactlyWhen(s: State, mask: Mask, r: Readiness)
    requires |s.response| <= 1 && (s.messages != [] ==> |s.messages[0].typeVec| == 1)
    ensures OnQueue(s, mask, r).outcome.Threw?
       <==> s.messages != [] && s.messages[0].typeVec == [TYPE_AUTH] && ReplyUnarmed(r)
    ensures OnQueue(s, mask, r).outcome.Threw? ==> OnQueue(s, mask, r).mask == mask
  {
    if s.messages != [] {
      KindsOfQueue(s, mask, r);
      var t := Reply(TakeAuth(s), Judge(s).ok);
      assert t.response == [VerdictByte(Judge(s).ok)];
      OneByteFlush(t.response[0], YES, r.replySends);
    }
    hide ReadAuth, Flush;
  }

  lemma ReadableThrowsExactlyWhen(s: State, mask: Mask, r: Readiness)
    requires StateInv(s)
    ensures OnReadable(s, mask, r).outcome.Threw?
       <==> && Drain(r.recvs).alive && !Scan(Pending(ParserOf(s)) + Drain(r.recvs).data).halt.Spinning?
            && QueueAfter(s, r) != [] && QueueAfter(s, r)[0].typeVec == [TYPE_AUTH]
            && ReplyUnarmed(r)
    ensures OnReadable(s, mask, r).outcome.Threw? ==> OnReadable(s, mask, r).mask == mask
  {
    var t := Receive(s, Drain(r.recvs).data);
    ReceiveKeeps(s, Drain(r.recvs).data);
    ParseKeeps(t);
    FrontIsTyped(Parse(t));
    ParsedQueue(s, r);
    QueueThrowsExactlyWhen(Parse(t), mask, r);
    hide Flush, Drain, Scan, Pending, StateInv, OnQueue, Parse;
  }

  /** What the first half of an event comes to. */
  lemma BeforeComesTo(s: State, mask: Mask, r: Readiness)
    ensures var f := Flush(s.response, r.sends); var w := Before(s, mask, r);
            && (w.outcome.Threw? <==> r.writable && f.alive && f.left == [] && !r.disarmOk)
            && (w.outcome.Alive? <==> (r.writable ==> f.alive && (f.left != [] || r.disarmOk)))
            && (w.outcome.Threw? ==> w.mask == mask)
            && (w.outcome.Alive? ==> w.mask == if r.writable && f.left == [] then Mask(true, false) else mask)
  {
    hide Flush;
  }

  lemma EventAfterBefore(s: State, mask: Mask, r: Readiness)
    ensures var w := Before(s, mask, r);
            OnEvent(s, mask, r) ==
            if r.error then Step(s, mask, Closing)
            else if w.outcome.Alive? && r.readable then OnReadable(w.state, w.mask, r)
            else w
  {
    hide OnReadable, Flush;
  }

  /**
   * An event throws exactly if epoll refuses to stop asking for room when the reply has gone, or to
   * start asking for it when the reply to a request just handled has not; the interest is then the
   * one last accepted.
   */
  lemma ThrowsExactlyWhen(s: State, mask: Mask, r: Readiness)
    requires StateInv(s)
    ensures OnEvent(s, mask, r).outcome.Threw? <==> Throws(s, r)
    ensures OnEvent(s, mask, r).outcome.Threw? ==>
              OnEvent(s, mask, r).mask ==
              if r.writable && Flush(s.response, r.sends).left == [] && r.disarmOk then Mask(true, false) else mask
  {
    var w := Before(s, mask, r);
    SendKeeps(s, r.sends);
    SendLeavesQueue(s, r.sends);
    ReadableThrowsExactlyWhen(w.state, w.mask, r);
    assert QueueAfter(w.state, r) == QueueAfter(s, r) && ParserOf(w.state) == ParserOf(s);
    BeforeComesTo(s, mask, r);
    EventAfterBefore(s, mask, r);
    hide OnEvent, Before, OnReadable, Flush, Drain, Scan, Pending, StateInv, QueueAfter, ReplyUnarmed;
  }

  // ---------- Replies over whole runs ----------

  /** The event handles an authentication request while the reply to an earlier one still waits. */
  predicate Overwrites(s: State, mask: Mask, r: Readiness) {
    var w := Before(s, mask, r);
    && !r.error && r.readable && w.outcome.Alive? && Drain(r.recvs).alive
    && !Scan(Pending(ParserOf(s)) + Drain(r.recvs).data).halt.Spinning?
    && QueueAfter(s, r) != [] && QueueAfter(s, r)[0].typeVec == [TYPE_AUTH]
    && w.state.response != []
  }

  /** How often a waiting reply is overwritten in a run. */
  function Overwritten(s: State, mask: Mask, events: seq<Readiness>): nat
    decreases |events|
  {
    if events == [] then 0
    else
      var st := OnEvent(s, mask, events[0]);
      (if Overwrites(s, mask, events[0]) then 1 else 0) +
      if st.outcome.Alive? then Overwritten(st.state, st.mask, events[1..]) else 0
  }

  /** The verdicts given that are neither sent nor waiting. */
  function Missing(s: State): int {
    |s.journal.verdicts| - |s.journal.sent| - |s.response|
  }

  lemma SendMissesNone(s: State, answers: seq<SendAnswer>)
    ensures Missing(Send(s, answers)) == Missing(s)
  {
    var f := Flush(s.response, answers);
    FlushConserves(s.response, answers);
    assert |f.sent + f.left| == |f.sent| + |f.left|;
  }

  lemma AuthMissesWaiting(s: State, mask: Mask, r: Readiness)
    requires |s.response| <= 1 && s.messages != []
    ensures Missing(OnAuth(s, mask, r).state) == Missing(s) + |s.response|
  {
    SendMissesNone(Reply(TakeAuth(s), Judge(s).ok), r.replySends);
    hide Flush, ReadAuth;
  }

  lemma QueueMisses(s: State, mask: Mask, r: Readiness)
    requires |s.response| <= 1 && (s.messages != [] ==> |s.messages[0].typeVec| == 1)
    ensures Missing(OnQueue(s, mask, r).state) ==
            Missing(s) + if s.messages != [] && s.messages[0].typeVec == [TYPE_AUTH] then |s.response| else 0
  {
    if s.messages != [] {
      KindsOfQueue(s, mask, r);
      AuthMissesWaiting(s, mask, r);
      hide OnQueue, OnAuth;
    }
  }

  lemma ReadableMisses(s: State, mask: Mask, r: Readiness)
    requires StateInv(s)
    ensures Missing(OnReadable(s, mask, r).state) ==
            Missing(s) +
            if && Drain(r.recvs).alive && !Scan(Pending(ParserOf(s)) + Drain(r.recvs).data).halt.Spinning?
               && QueueAfter(s, r) != [] && QueueAfter(s, r)[0].typeVec == [TYPE_AUTH]
            then |s.response| else 0
  {
    var t := Receive(s, Drain(r.recvs).data);
    ReceiveKeeps(s, Drain(r.recvs).data);
    ParseKeeps(t);
    FrontIsTyped(Parse(t));
    ParsedQueue(s, r);
    QueueMisses(Parse(t), mask, r);
    hide Drain, Scan, Pending, OnQueue, StateInv;
  }

  lemma EventMisses(s: State, mask: Mask, r: Readiness)
    requires StateInv(s)
    ensures Missing(OnEvent(s, mask, r).state) == Missing(s) + if Overwrites(s, mask, r) then 1 else 0
  {
    var w := Before(s, mask, r);
    SendKeeps(s, r.sends);
    SendLeavesQueue(s, r.sends);
    SendMissesNone(s, r.sends);
    ReadableMisses(w.state, w.mask, r);
    assert |w.state.response| <= 1;
    hide OnReadable, Drain, Scan, Pending, Flush, StateInv;
  }

  lemma {:induction false} RunMisses(s: State, mask: Mask, events: seq<Readiness>)
    requires StateInv(s) && MaskInv(s, mask)
    ensures Missing(RunSession(s, mask, events).state) == Missing(s) + Overwritten(s, mask, events)
    decreases |events|
  {
    hide OnEvent, StateInv, MaskInv, Missing, Overwrites;
    if events != [] {
      EventKeeps(s, mask, events[0]);
      EventMisses(s, mask, events[0]);
      var st := OnEvent(s, mask, events[0]);
      if st.outcome.Alive? {
        RunMisses(st.state, st.mask, events[1..]);
      }
    }
  }

  /** The verdicts as the bytes they are sent as. */
  function VerdictBytes(v: seq<bool>): seq<byte> {
    seq(|v|, k requires 0 <= k < |v| => VerdictByte(v[k]))
  }

  /** Thinned by none, the verdicts are all there. */
  lemma {:induction false} ThinnedByNone(w: seq<byte>, v: seq<bool>)
    requires Thinned(w, v) && |w| == |v|
    ensures w == VerdictBytes(v)
    decreases |v|
  {
    if w != [] {
      var w', v' := w[..|w| - 1], v[..|v| - 1];
      if Thinned(w, v') {
        ThinnedIsShorter(w, v');
      }
      ThinnedByNone(w', v');
      assert w == w' + [w[|w| - 1]];
      assert VerdictBytes(v) == VerdictBytes(v') + [VerdictByte(v[|v| - 1])];
    }
  }

  /** At most one byte waits, and it or the last byte sent is the latest verdict. */
  ghost predicate RepliesFollow(sent: seq<byte>, response: seq<byte>, v: seq<bool>) {
    && |response| <= 1
    && Thinned(sent + response, v)
    && (v == [] ==> sent == [] && response == [])
    && (v != [] && response != [] ==> response == [VerdictByte(v[|v| - 1])])
    && (v != [] && response == [] ==> sent != [] && sent[|sent| - 1] == VerdictByte(v[|v| - 1]))
  }

  lemma CoalescedFollows(sent: seq<byte>, response: seq<byte>, v: seq<bool>)
    requires |response| <= 1 && Coalesced(sent + response, v)
    ensures RepliesFollow(sent, response, v)
  {
    var w := sent + response;
    CoalescedIsThinned(w, v);
    if v != [] {
      if response == [] {
        assert w == sent;
      } else {
        assert w[|w| - 1] == response[0];
      }
    }
  }

  /**
   * In every run at most one reply byte waits; the bytes sent and the one waiting are a subsequence
   * of the verdicts that ends in the latest one; and the verdicts that are missing from it are as
   * many as waiting replies were overwritten.
   */
  lemma CoalescingOverRuns(fd: int, events: seq<Readiness>)
    ensures var s := History(fd, events).state; var j := s.journal;
            && RepliesFollow(j.sent, s.response, j.verdicts)
            && |j.verdicts| == |j.sent| + |s.response| + Overwritten(Fresh(fd), READ_ONLY, events)
  {
    FreshHolds(fd);
    HistoryHolds(fd, events);
    RunMisses(Fresh(fd), READ_ONLY, events);
    hide RunSession, BytesConserved, HandledInOrder, Coalesced, Overwritten;
    var s := History(fd, events).state;
    CoalescedFollows(s.journal.sent, s.response, s.journal.verdicts);
  }

  /** Every verdict is sent or waiting exactly if no request was handled over a waiting reply. */
  lemma NoVerdictLostExactlyWhen(fd: int, events: seq<Readiness>)
    ensures var s := History(fd, events).state;
            (s.journal.sent + s.response == VerdictBytes(s.journal.verdicts)) <==>
            Overwritten(Fresh(fd), READ_ONLY, events) == 0
  {
    CoalescingOverRuns(fd, events);
    hide History, Overwritten, Thinned;
    var s := History(fd, events).state;
    var w := s.journal.sent + s.response;
    assert |VerdictBytes(s.journal.verdicts)| == |s.journal.verdicts|;
    if |w| == |s.journal.verdicts| {
      ThinnedByNone(w, s.journal.verdicts);
    }
  }

  // ---------- Whether writability stays asked for ----------

  /** A surviving writability event alone leaves writability asked for exactly if a reply waits. */
  lemma WritableEventDisarms(s: State, mask: Mask, r: Readiness)
    requires MaskInv(s, mask) && r.writable && !r.readable && OnEvent(s, mask, r).outcome.Alive?
    ensures var st := OnEvent(s, mask, r);
            && st.mask.readable && (st.mask.writable <==> st.state.response != [])
            && st.state.journal.sent + st.state.response == s.journal.sent + s.response
  {
    FlushConserves(s.response, r.sends);
    var f := Flush(s.response, r.sends);
    Assoc(s.journal.sent, f.sent, f.left);
    if s.response == [] {
      assert f.left == [];
    }
  }

  lemma QueueLeavesMask(s: State, mask: Mask, r: Readiness)
    ensures var st := OnQueue(s, mask, r);
            st.outcome.Alive? && st.state.response == [] ==> st.mask == mask
  {
    hide Flush, ReadAuth;
  }

  lemma ReadableLeavesMask(s: State, mask: Mask, r: Readiness)
    ensures var st := OnReadable(s, mask, r);
            st.outcome.Alive? && st.state.response == [] ==> st.mask == mask
  {
    QueueLeavesMask(Parse(Receive(s, Drain(r.recvs).data)), mask, r);
    hide OnQueue, Parse, Receive, Drain;
  }

  /** A session with nothing pending and an empty queue. */
  predicate AtRest(s: State) {
    ParserOf(s) == START && |s.response| <= 1
  }

  lemma ReplyFlushed(response: seq<byte>, answer: SendAnswer)
    requires |response| == 1 && (answer.SendAgain? || answer == Room(1))
    ensures Flush(response, [answer]) ==
            if answer == Room(1) then Flushed(response, [], true) else Flushed([], response, true)
  {
    assert [answer][1..] == [] && response[..1] == response && response[1..] == [];
    assert response + [] == response;
  }

  lemma ArrivesQueued(s: State, b: seq<byte>, m: Message)
    requires ParserOf(s) == START && Scan(b) == Scanned([Frame(m)], [], Starved)
    ensures var t := Receive(s, b);
            && HaltOf(ParserOf(t)).Starved?
            && ParserOf(Parse(t)) == Parser(EMPTY_MESSAGE, [m], []) && Parse(t).response == s.response
  {
    assert Pending(ParserOf(Receive(s, b))) == b;
    FramesOfOne(Frame(m));
    hide Scan, FramesOf, Pending;
    assert s.messages + [m] == [m];
  }

  lemma AuthAnswered(s: State, mask: Mask, r: Readiness, m: Message, answer: SendAnswer)
    requires ParserOf(s) == Parser(EMPTY_MESSAGE, [m], []) && m.typeVec == [TYPE_AUTH] && |s.response| <= 1
    requires r.armOk && r.replySends == [answer] && (answer.SendAgain? || answer == Room(1))
    ensures var st := OnQueue(s, mask, r);
            && st.outcome.Alive? && AtRest(st.state)
            && (st.state.response == [] <==> answer == Room(1))
            && st.mask == if answer == Room(1) then mask else READ_WRITE
  {
    KindsOfQueue(s, mask, r);
    var t := Reply(TakeAuth(s), Judge(s).ok);
    assert |t.response| == 1;
    ReplyFlushed(t.response, answer);
    hide OnQueue, ReadAuth, Flush;
    assert s.messages[1..] == [];
  }

  /** A whole authentication request arrives at a session at rest. */
  lemma RequestArrives(s: State, mask: Mask, body: seq<byte>, answer: SendAnswer)
    requires AtRest(s) && 1 <= |body| <= MAX_MESSAGE_SIZE && (answer.SendAgain? || answer == Room(1))
    ensures var st := OnEvent(s, mask, InputReport([Data(Encode(TYPE_AUTH, body))], [answer]));
            && st.outcome.Alive? && AtRest(st.state)
            && (st.state.response == [] <==> answer == Room(1))
            && st.mask == if answer == Room(1) then mask else READ_WRITE
  {
    var b, m := Encode(TYPE_AUTH, body), MessageOf(TYPE_AUTH, body);
    var r := InputReport([Data(b)], [answer]);
    EncodedScan(TYPE_AUTH, body);
    assert |b| > 0 && m.typeVec == [TYPE_AUTH];
    hide Scan, Encode, MessageOf, OnQueue, Parse;
    DrainOnce(b);
    ArrivesQueued(s, b, m);
    AuthAnswered(Parse(Receive(s, b)), mask, r, m, answer);
  }

  lemma DrainOnce(b: seq<byte>)
    requires b != []
    ensures Drain([Data(b)]) == Drained(b, true)
  {
    assert [Data(b)][1..] == [] && b + [] == b;
  }

  lemma RunOfTwo(s: State, mask: Mask, first: Readiness, second: Readiness)
    requires OnEvent(s, mask, first).outcome.Alive?
    ensures var st := OnEvent(s, mask, first);
            RunSession(s, mask, [first, second]) == OnEvent(st.state, st.mask, second)
  {
    hide OnEvent;
    var st := OnEvent(s, mask, first);
    assert [first, second][1..] == [second];
    assert [second][1..] == [];
    assert RunSession(st.state, st.mask, [second]) == OnEvent(st.state, st.mask, second);
  }

  /** The run of a connection that makes two requests, with no room for the reply to the first. */
  lemma RunEndsArmedInVain(fd: int, body: seq<byte>)
    requires 1 <= |body| <= MAX_MESSAGE_SIZE
    ensures var request := Data(Encode(TYPE_AUTH, body));
            var st := History(fd, [InputReport([request], [SendAgain]), InputReport([request], [Room(1)])]);
            st.outcome.Alive? && st.state.response == [] && st.mask.writable
  {
    var first := InputReport([Data(Encode(TYPE_AUTH, body))], [SendAgain]);
    var second := InputReport([Data(Encode(TYPE_AUTH, body))], [Room(1)]);
    assert AtRest(Fresh(fd));
    hide OnEvent, Encode, AtRest, Fresh, RunSession, InputReport;
    RequestArrives(Fresh(fd), READ_ONLY, body, SendAgain);
    var st := OnEvent(Fresh(fd), READ_ONLY, first);
    RequestArrives(st.state, st.mask, body, Room(1));
    RunOfTwo(Fresh(fd), READ_ONLY, first, second);
  }

  /**
   * After an event that leaves no reply waiting, writability is still asked for exactly if it was
   * before and the event did not get the reply out in its writable half: a reply that a readable
   * event sends off itself leaves it asked for.
   */
  lemma ArmedInVainExactlyWhen(s: State, mask: Mask, r: Readiness)
    requires MaskInv(s, mask) && OnEvent(s, mask, r).outcome.Alive? && OnEvent(s, mask, r).state.response == []
    ensures OnEvent(s, mask, r).mask.writable
       <==> mask.writable && !(r.writable && Flush(s.response, r.sends).left == [])
  {
    var w := Before(s, mask, r);
    if r.readable {
      ReadableLeavesMask(w.state, w.mask, r);
    }
    hide OnReadable, Drain;
  }
}
