/**
 * One client session of the server: its state, what each kernel event does to it, and the class
 * whose methods do it in place.
 *
 * The kernel is a script of answers.  A script that runs out stands for EAGAIN, so every finite
 * sequence of answers that a non-blocking socket can give is some script.
 */
module Sessions {
  import opened Bytes
  import opened Framing
  import opened Parsing
  import opened Auth

  const TYPE_AUTH: byte := 65   // 'A'
  const TYPE_IMAGE: byte := 73  // 'I'
  const YES: byte := 89         // 'Y'
  const NO: byte := 78          // 'N'

  /** A screenshot written to disk, and the names it was filed under. */
  datatype Saved = Saved(hostname: seq<byte>, username: seq<byte>, image: seq<byte>)

  /**
   * What has happened to the session so far: bytes received, items parsed out of them, messages
   * handled, verdicts on authentication requests, reply bytes sent, and screenshots saved.
   */
  datatype Journal = Journal(
    received: seq<byte>,
    consumed: seq<Item>,
    handled: seq<Message>,
    verdicts: seq<bool>,
    sent: seq<byte>,
    saved: seq<Saved>
  )

  datatype State = State(
    fd: int,
    hostname: seq<byte>,
    username: seq<byte>,
    message: Message,
    messages: seq<Message>,
    request: seq<byte>,
    response: seq<byte>,
    journal: Journal
  )

  function Fresh(fd: int): State {
    State(fd, [], [], EMPTY_MESSAGE, [], [], [], Journal([], [], [], [], [], []))
  }

  function ParserOf(s: State): Parser {
    Parser(s.message, s.messages, s.request)
  }

  // ---------- The kernel's answers ----------

  /** `Data([])` is end of file. */
  datatype RecvAnswer = Data(bytes: seq<byte>) | RecvAgain | RecvInterrupted | RecvFailed

  /** `Room(k)`: the kernel takes as many bytes as are offered, up to `k`. */
  datatype SendAnswer = Room(k: nat) | SendAgain | SendInterrupted | SendFailed

  datatype Drained = Drained(data: seq<byte>, alive: bool)

  /** The bytes that one drain of the socket yields, and whether the connection survives it. */
  function Drain(answers: seq<RecvAnswer>): Drained {
    if answers == [] then Drained([], true)
    else
      match answers[0]
      case Data(bytes) =>
        if bytes == [] then Drained([], false)
        else var d := Drain(answers[1..]); Drained(bytes + d.data, d.alive)
      case RecvAgain => Drained([], true)
      case RecvInterrupted => Drain(answers[1..])
      case RecvFailed => Drained([], false)
  }

  datatype Flushed = Flushed(sent: seq<byte>, left: seq<byte>, alive: bool)

  /** How much of a reply the kernel takes before it answers anything but room. */
  function Flush(response: seq<byte>, answers: seq<SendAnswer>): Flushed
    decreases |answers|
  {
    if response == [] || answers == [] then Flushed([], response, true)
    else
      match answers[0]
      case Room(k) =>
        var n := Min(k, |response|);
        if n == 0 then Flushed([], response, false)
        else var f := Flush(response[n..], answers[1..]); Flushed(response[..n] + f.sent, f.left, f.alive)
      case SendAgain => Flushed([], response, true)
      case SendInterrupted => Flush(response, answers[1..])
      case SendFailed => Flushed([], response, false)
  }

  /** What one answer does to a reply that is not empty. */
  lemma FlushUnfolds(response: seq<byte>, answers: seq<SendAnswer>)
    requires response != []
    ensures var f := Flush(response, answers);
            if answers == [] || answers[0].SendAgain? then f == Flushed([], response, true)
            else if answers[0].SendInterrupted? then f == Flush(response, answers[1..])
            else if answers[0].SendFailed? || answers[0] == Room(0) then f == Flushed([], response, false)
            else
              var n := Min(answers[0].k, |response|);
              var g := Flush(response[n..], answers[1..]);
              f == Flushed(response[..n] + g.sent, g.left, g.alive)
  {
  }

  lemma {:induction false} FlushConserves(response: seq<byte>, answers: seq<SendAnswer>)
    ensures var f := Flush(response, answers); f.sent + f.left == response
    decreases |answers|
  {
    if response != [] && answers != [] {
      match answers[0]
      case Room(k) =>
        var n := Min(k, |response|);
        if n > 0 {
          FlushConserves(response[n..], answers[1..]);
          var f := Flush(response[n..], answers[1..]);
          Assoc(response[..n], f.sent, f.left);
        }
      case SendInterrupted => FlushConserves(response, answers[1..]);
      case _ =>
    }
  }

  // ---------- What each operation does ----------

  function Receive(s: State, data: seq<byte>): State {
    s.(request := s.request + data, journal := s.journal.(received := s.journal.received + data))
  }

  /** `ParseMessage`; if it spins, the state it spins in. */
  function Parse(s: State): State {
    var p := ParsedTo(ParserOf(s));
    var items := Scan(Pending(ParserOf(s))).items;
    s.(message := p.message, messages := p.messages, request := p.request,
       journal := s.journal.(consumed := s.journal.consumed + items))
  }

  function Send(s: State, answers: seq<SendAnswer>): State {
    var f := Flush(s.response, answers);
    s.(response := f.left, journal := s.journal.(sent := s.journal.sent + f.sent))
  }

  function VerdictByte(ok: bool): byte {
    if ok then YES else NO
  }

  /** A reply still waiting is overwritten, not queued behind. */
  function Reply(s: State, ok: bool): State {
    s.(response := if s.response != [] then s.response[0 := VerdictByte(ok)] else [VerdictByte(ok)])
  }

  function Judge(s: State): (r: AuthRead)
    requires s.messages != []
  {
    ReadAuth(s.messages[0].bytesVec, s.hostname, s.username)
  }

  function TakeAuth(s: State): State
    requires s.messages != []
  {
    var r := Judge(s);
    s.(hostname := r.hostname, username := r.username, messages := s.messages[1..],
       journal := s.journal.(handled := s.journal.handled + [s.messages[0]],
                             verdicts := s.journal.verdicts + [r.ok]))
  }

  function TakeImage(s: State): State
    requires s.messages != []
  {
    s.(messages := s.messages[1..],
       journal := s.journal.(handled := s.journal.handled + [s.messages[0]],
                             saved := s.journal.saved + [Saved(s.hostname, s.username, s.messages[0].bytesVec)]))
  }

  // ---------- Events ----------

  /** The interest a descriptor is registered with. */
  datatype Mask = Mask(readable: bool, writable: bool)

  const READ_ONLY := Mask(true, false)
  const READ_WRITE := Mask(true, true)

  /** `Hung`: the server never comes back; `Threw`: the exception ends the event loop. */
  datatype Outcome = Alive | Closing | Hung | Threw

  datatype Step = Step(state: State, mask: Mask, outcome: Outcome)

  /** What `epoll_wait` reports of a client, and how the kernel answers while it is handled. */
  datatype Readiness = Readiness(
    error: bool,
    writable: bool,
    readable: bool,
    sends: seq<SendAnswer>,
    disarmOk: bool,
    recvs: seq<RecvAnswer>,
    replySends: seq<SendAnswer>,
    armOk: bool
  )

  function OnWritable(s: State, mask: Mask, r: Readiness): (st: Step)
    ensures st.state.fd == s.fd
  {
    var t := Send(s, r.sends);
    if !Flush(s.response, r.sends).alive then Step(t, mask, Closing)
    else if t.response != [] then Step(t, mask, Alive)
    else if r.disarmOk then Step(t, READ_ONLY, Alive)
    else Step(t, mask, Threw)
  }

  function OnAuth(s: State, mask: Mask, r: Readiness): (st: Step)
    requires s.messages != []
    ensures st.state.fd == s.fd
  {
    var t := Reply(TakeAuth(s), Judge(s).ok);
    var u := Send(t, r.replySends);
    if !Flush(t.response, r.replySends).alive then Step(u, mask, Closing)
    else if u.response == [] then Step(u, mask, Alive)
    else if r.armOk then Step(u, READ_WRITE, Alive)
    else Step(u, mask, Threw)
  }

  /** At most one message is handled; one that is neither kind stays at the front. */
  function OnQueue(s: State, mask: Mask, r: Readiness): (st: Step)
    ensures st.state.fd == s.fd
  {
    if s.messages == [] then Step(s, mask, Alive)
    else if |s.messages[0].typeVec| < 1 then Step(s, mask, Threw)
    else if s.messages[0].typeVec[0] == TYPE_AUTH then OnAuth(s, mask, r)
    else if s.messages[0].typeVec[0] == TYPE_IMAGE then Step(TakeImage(s), mask, Alive)
    else Step(s, mask, Alive)
  }

  function OnReadable(s: State, mask: Mask, r: Readiness): (st: Step)
    ensures st.state.fd == s.fd
  {
    var d := Drain(r.recvs);
    var t := Receive(s, d.data);
    if !d.alive then Step(t, mask, Closing)
    else if HaltOf(ParserOf(t)).Spinning? then Step(Parse(t), mask, Hung)
    else OnQueue(Parse(t), mask, r)
  }

  function OnEvent(s: State, mask: Mask, r: Readiness): (st: Step)
    ensures st.state.fd == s.fd
  {
    if r.error then Step(s, mask, Closing)
    else
      var w := if r.writable then OnWritable(s, mask, r) else Step(s, mask, Alive);
      if w.outcome.Alive? && r.readable then OnReadable(w.state, w.mask, r) else w
  }

  // ---------- The class ----------

  /** `PopUint16`: the value and the shortened buffer, or nothing where the source throws. */
  method PopUint16(buffer: seq<byte>) returns (value: Option<nat>, rest: seq<byte>)
    ensures |buffer| < 2 ==> value == None && rest == buffer
    ensures |buffer| >= 2 ==> value == Some(U16(buffer)) && Be16(value.value) + rest == buffer
  {
    if |buffer| >= 2 {
      Be16OfU16(buffer);
    }
    if |buffer| < 2 {
      return None, buffer;
    }
    return Some(U16(buffer)), buffer[2..];
  }

  /** `PopString`: the string and the shortened buffer, or nothing where the source throws. */
  method PopString(buffer: seq<byte>, len: nat) returns (value: Option<seq<byte>>, rest: seq<byte>)
    ensures |buffer| < len ==> value == None && rest == buffer
    ensures |buffer| >= len ==> value.Some? && |value.value| == len && value.value + rest == buffer
  {
    if |buffer| < len {
      return None, buffer;
    }
    return Some(buffer[..len]), buffer[len..];
  }

  /** A length and the string behind it; nothing where either read throws. */
  method PopName(buffer: seq<byte>) returns (name: Option<seq<byte>>, rest: seq<byte>)
    ensures ReadName(buffer) == if name.Some? then Name(name.value, rest) else Short(rest)
  {
    var len, behind := PopUint16(buffer);
    if len.None? {
      return None, behind;
    }
    assert buffer[..2] == Be16(len.value) && buffer[2..] == behind;
    name, rest := PopString(behind, len.value);
    if name.Some? {
      assert buffer[2..2 + len.value] == name.value && buffer[2 + len.value..] == rest;
    }
  }

  /** The number whose encoding the buffer starts with; nothing where the source throws. */
  function PeekUint32(buffer: seq<byte>): (r: Option<nat>)
    ensures r == None <==> |buffer| < 4
    ensures r.Some? ==> r.value < 0x1_0000_0000 && Be32(r.value) == buffer[..4]
  {
    if |buffer| < 4 then None
    else
      Be32OfU32(buffer);
      Some(U32(buffer))
  }

  method IsValidName(name: seq<byte>) returns (ok: bool)
    ensures ok <==> ValidName(name)
    ensures ok <==> 1 <= |name| <= 255 && forall k :: 0 <= k < |name| ==>
              var c := name[k] as char;
              '0' <= c <= '9' || 'A' <= c <= 'Z' || 'a' <= c <= 'z' || c == '-' || c == '_'
  {
    if |name| == 0 || |name| > MAX_NAME_LENGTH {
      return false;
    }
    for k := 0 to |name|
      invariant forall j :: 0 <= j < k ==> NameChar(name[j])
    {
      if !NameChar(name[k]) {
        return false;
      }
    }
    return true;
  }

  class Session {
    const fd: int
    var hostname: seq<byte>
    var username: seq<byte>
    var message: Message
    var messages: seq<Message>
    var request: seq<byte>
    var response: seq<byte>
    ghost var journal: Journal

    ghost function Abs(): State
      reads this
    {
      State(fd, hostname, username, message, messages, request, response, journal)
    }

    constructor (fd: int)
      ensures Abs() == Fresh(fd)
    {
      this.fd := fd;
      hostname, username := [], [];
      message, messages := EMPTY_MESSAGE, [];
      request, response := [], [];
      journal := Journal([], [], [], [], [], []);
    }

    predicate SendBufferEmpty()
      reads this
    {
      response == []
    }

    predicate IsMessageComplete()
      reads this
    {
      messages != []
    }

    /** Nothing where the source throws. */
    function GetMessageType(): Option<byte>
      requires IsMessageComplete()
      reads this
    {
      if |messages[0].typeVec| < 1 then None else Some(messages[0].typeVec[0])
    }

    method FromReqToVec(vec: seq<byte>, len: nat) returns (ok: bool, out: seq<byte>)
      modifies this`request
      ensures ok <==> len <= |old(request)|
      ensures !ok ==> out == vec && request == old(request)
      ensures ok ==> out == vec + old(request)[..len] && request == old(request)[len..]
    {
      if |request| < len {
        return false, vec;
      }
      out := vec + request[..len];
      request := request[len..];
      return true, out;
    }

    /** The first two steps of a turn of `ParseMessage`; false where the source returns. */
    method FillHeader() returns (ok: bool)
      requires Shape(ParserOf(Abs()))
      modifies this`message, this`request
      ensures Abs() == old(Abs()).(message := message, request := request)
      ensures GatherHeader(ParserOf(old(Abs()))) == if ok then Repeats(ParserOf(Abs())) else Returns(ParserOf(Abs()))
      ensures Shape(ParserOf(Abs())) && (ok ==> |message.sizeVec| == 4)
      ensures |request| <= |old(request)|
    {
      if |message.typeVec| != 1 {
        var filled, vec := FromReqToVec(message.typeVec, 1);
        message := message.(typeVec := vec);
        if !filled {
          return false;
        }
      }
      if |message.sizeVec| != 4 {
        var filled, vec := FromReqToVec(message.sizeVec, 4);
        message := message.(sizeVec := vec);
        if !filled {
          return false;
        }
      }
      return true;
    }

    /** The last step of a turn, for a body still missing; false where the source returns. */
    method FillBody(msgLen: nat) returns (ok: bool)
      requires Shape(ParserOf(Abs())) && |message.sizeVec| == 4
      requires msgLen == U32(message.sizeVec) != |message.bytesVec|
      modifies this`message, this`messages, this`request
      ensures Abs() == old(Abs()).(message := message, messages := messages, request := request)
      ensures TakeBody(ParserOf(old(Abs()))) == if ok then Repeats(ParserOf(Abs())) else Returns(ParserOf(Abs()))
      ensures Shape(ParserOf(Abs())) && (ok ==> |request| < |old(request)|)
    {
      if msgLen > MAX_MESSAGE_SIZE {
        message := EMPTY_MESSAGE;
        return false;
      }
      var filled, vec := FromReqToVec(message.bytesVec, msgLen);
      message := message.(bytesVec := vec);
      if !filled {
        return false;
      }
      if |message.bytesVec| == msgLen {
        messages := messages + [message];
        message := EMPTY_MESSAGE;
      } else {
        return false;
      }
      return true;
    }

    /**
     * Returns `hung` where the source's loop would go round for ever: in the state then reached
     * one more turn of the loop changes nothing.
     */
    method ParseMessage() returns (hung: bool)
      requires Shape(ParserOf(Abs()))
      modifies this`message, this`messages, this`request, this`journal
      ensures Abs() == Parse(old(Abs()))
      ensures hung <==> HaltOf(ParserOf(old(Abs()))).Spinning?
      ensures hung ==> Iterate(ParserOf(Abs())) == Repeats(ParserOf(Abs()))
    {
      ghost var start := ParserOf(Abs());
      ghost var turns: nat := 0;
      while true
        invariant Loop(start, turns) == Repeats(ParserOf(Abs()))
        invariant Shape(ParserOf(Abs()))
        invariant Abs() == old(Abs()).(message := message, messages := messages, request := request)
        decreases |request|
      {
        LoopNext(start, turns, ParserOf(Abs()));
        turns := turns + 1;

        var ok := FillHeader();
        if !ok {
          break;
        }

        var size := PeekUint32(message.sizeVec);
        assert size.Some?;
        var msgLen := size.value;
        if |message.bytesVec| != msgLen {
          ok := FillBody(msgLen);
          if !ok {
            break;
          }
        } else {
          SettleSpinning(start, turns);
          return true;
        }
      }
      Settle(start, turns);
      return false;
    }

    /** Records what a call of `ParseMessage` that returns has consumed. */
    ghost method Settle(start: Parser, turns: nat)
      requires Shape(start) && Loop(start, turns) == Returns(ParserOf(Abs()))
      modifies this`journal
      ensures ParserOf(Abs()) == ParsedTo(start) && !HaltOf(start).Spinning?
      ensures journal == old(journal).(consumed := old(journal).consumed + Scan(Pending(start)).items)
    {
      LoopAgrees(start, turns);
      journal := journal.(consumed := journal.consumed + Scan(Pending(start)).items);
    }

    ghost method SettleSpinning(start: Parser, turns: nat)
      requires Shape(start) && Loop(start, turns) == Repeats(ParserOf(Abs()))
      requires Shape(ParserOf(Abs())) && |message.sizeVec| == 4 && U32(message.sizeVec) == 0
      modifies this`journal
      ensures ParserOf(Abs()) == ParsedTo(start) && HaltOf(start).Spinning?
      ensures Iterate(ParserOf(Abs())) == Repeats(ParserOf(Abs()))
      ensures journal == old(journal).(consumed := old(journal).consumed + Scan(Pending(start)).items)
    {
      var q := ParserOf(Abs());
      assert Iterate(q) == Repeats(q);
      SpinAgrees(start, turns, q);
      journal := journal.(consumed := journal.consumed + Scan(Pending(start)).items);
    }

    method TryRecv(answers: seq<RecvAnswer>) returns (alive: bool)
      modifies this`request, this`journal
      ensures Abs() == Receive(old(Abs()), Drain(answers).data)
      ensures alive == Drain(answers).alive
    {
      var left := answers;
      ghost var got: seq<byte> := [];
      assert Receive(Abs(), []) == Abs();
      while true
        invariant Abs() == Receive(old(Abs()), got)
        invariant Drain(answers) == Drained(got + Drain(left).data, Drain(left).alive)
        decreases |left|
      {
        var answer := if left == [] then RecvAgain else left[0];
        left := if left == [] then [] else left[1..];
        match answer
        case Data(bytes) =>
          if |bytes| > 0 {
            request := request + bytes;
            journal := journal.(received := journal.received + bytes);
            got := got + bytes;
          } else {
            assert got + [] == got;
            return false;
          }
        case RecvAgain =>
          assert got + [] == got;
          return true;
        case RecvInterrupted =>
        case RecvFailed =>
          assert got + [] == got;
          return false;
      }
    }

    method TrySend(answers: seq<SendAnswer>) returns (alive: bool)
      modifies this`response, this`journal
      ensures Abs() == Send(old(Abs()), answers)
      ensures alive == Flush(old(response), answers).alive
    {
      var left := answers;
      ghost var gone: seq<byte> := [];
      while |response| != 0
        invariant Abs() == old(Abs()).(response := response, journal := old(journal).(sent := old(journal).sent + gone))
        invariant var f := Flush(response, left);
                  Flush(old(response), answers) == Flushed(gone + f.sent, f.left, f.alive)
        decreases |left|, |response|
      {
        FlushUnfolds(response, left);
        hide Flush;
        var answer := if left == [] then SendAgain else left[0];
        left := if left == [] then [] else left[1..];
        match answer
        case Room(k) =>
          var n := Min(k, |response|);
          if n > 0 {
            Assoc(gone, response[..n], Flush(response[n..], left).sent);
            Assoc(old(journal).sent, gone, response[..n]);
            gone := gone + response[..n];
            journal := journal.(sent := journal.sent + response[..n]);
            response := response[n..];
          } else {
            assert gone + [] == gone;
            return false;
          }
        case SendAgain =>
          assert gone + [] == gone;
          return true;
        case SendInterrupted =>
        case SendFailed =>
          assert gone + [] == gone;
          return false;
      }
      assert gone + [] == gone;
      return true;
    }

    method SendAuthResponse(ok: bool, answers: seq<SendAnswer>) returns (alive: bool)
      modifies this`response, this`journal
      ensures Abs() == Send(Reply(old(Abs()), ok), answers)
      ensures alive == Flush(Reply(old(Abs()), ok).response, answers).alive
    {
      var resp := if ok then YES else NO;
      if |response| != 0 {
        response := response[0 := resp];
      } else {
        response := response + [resp];
        assert response == [resp];
      }
      assert Abs() == Reply(old(Abs()), ok);
      alive := TrySend(answers);
    }

    /** False where the source throws; the message at the front has then lost what was read of it. */
    method ParseAuthMessage() returns (ok: bool)
      requires messages != []
      modifies this`hostname, this`username, this`messages
      ensures var r := Judge(old(Abs()));
              && ok == r.ok && hostname == r.hostname && username == r.username
              && messages == old(messages)[0 := old(messages[0]).(bytesVec := r.left)]
    {
      var host, afterHost := PopName(messages[0].bytesVec);
      messages := messages[0 := messages[0].(bytesVec := afterHost)];
      if host.None? {
        return false;
      }
      hostname := host.value;
      var hostOk := IsValidName(hostname);
      if !hostOk {
        return false;
      }
      var user, afterUser := PopName(afterHost);
      messages := messages[0 := messages[0].(bytesVec := afterUser)];
      if user.None? {
        return false;
      }
      username := user.value;
      ok := IsValidName(username);
    }

    method HandleAuthRequest() returns (ok: bool)
      requires messages != []
      modifies this`hostname, this`username, this`messages, this`journal
      ensures Abs() == TakeAuth(old(Abs())) && ok == Judge(old(Abs())).ok
    {
      ghost var front := messages[0];
      ok := ParseAuthMessage();
      messages := messages[1..];
      journal := journal.(handled := journal.handled + [front], verdicts := journal.verdicts + [ok]);
    }

    method HandleImgMessage()
      requires messages != []
      modifies this`messages, this`journal
      ensures Abs() == TakeImage(old(Abs()))
    {
      journal := journal.(handled := journal.handled + [messages[0]],
                          saved := journal.saved + [Saved(hostname, username, messages[0].bytesVec)]);
      messages := messages[1..];
    }
  }
}
