/**
 * The event loop over many sessions: what each step does to the table of sessions, the interest
 * registered with epoll and the open client descriptors, and the class that does it in place.
 */
module Servers {
  import opened Parsing
  import opened Sessions
  import opened SessionLaws
  import Resources = UniqueResources

  /** `Connection`: a descriptor, whether epoll takes it, and whether the peer has a printable name. */
  datatype AcceptAnswer =
    | Connection(fd: int, addOk: bool, nameOk: bool)
    | AcceptAgain
    | AcceptInterrupted
    | AcceptFailed

  /** What `epoll_wait` reports of one descriptor; the listener's report carries what `accept` answers. */
  datatype Event = Event(fd: int, ready: Readiness, accepts: seq<AcceptAnswer>)

  datatype WaitAnswer = Batch(events: seq<Event>) | WaitInterrupted | WaitFailed

  datatype ServerState = ServerState(
    listener: int,
    sessions: map<int, State>,
    interest: map<int, Mask>,
    open: set<int>
  )

  /** `Stuck`: a parser spins for ever; `Failed`: an exception left the event loop. */
  datatype Status = Running | Stuck | Failed

  datatype Ran = Ran(state: ServerState, status: Status)

  function Boot(listener: int): ServerState {
    ServerState(listener, map[], map[], {})
  }

  // ---------- What each step does ----------

  /** A connection that epoll refuses, or whose peer has no name, is closed again at once. */
  function Admit(s: ServerState, a: AcceptAnswer): ServerState
    requires a.Connection?
  {
    if a.addOk && a.nameOk
    then s.(sessions := s.sessions[a.fd := Fresh(a.fd)],
            interest := s.interest[a.fd := READ_ONLY],
            open := s.open + {a.fd})
    else s
  }

  function AcceptAll(s: ServerState, answers: seq<AcceptAnswer>): ServerState
    decreases |answers|
  {
    if answers == [] then s
    else
      match answers[0]
      case Connection(_, _, _) => AcceptAll(Admit(s, answers[0]), answers[1..])
      case AcceptInterrupted => AcceptAll(s, answers[1..])
      case _ => s
  }

  function Close(s: ServerState, fd: int): ServerState {
    s.(sessions := s.sessions - {fd}, interest := s.interest - {fd}, open := s.open - {fd})
  }

  function Update(s: ServerState, fd: int, st: Step): ServerState {
    s.(sessions := s.sessions[fd := st.state], interest := s.interest[fd := st.mask])
  }

  function Settled(s: ServerState, fd: int, st: Step): Ran {
    match st.outcome
    case Alive => Ran(Update(s, fd, st), Running)
    case Closing => Ran(Close(s, fd), Running)
    case Hung => Ran(Update(s, fd, st), Stuck)
    case Threw => Ran(Update(s, fd, st), Failed)
  }

  /** An event for a descriptor without a session is ignored. */
  function Deliver(s: ServerState, fd: int, r: Readiness): Ran
    requires s.sessions.Keys == s.interest.Keys
  {
    if fd !in s.sessions then Ran(s, Running)
    else Settled(s, fd, OnEvent(s.sessions[fd], s.interest[fd], r))
  }

  /** Whether table and interest are about the same descriptors, which every step preserves. */
  predicate Paired(s: ServerState) {
    s.sessions.Keys == s.interest.Keys
  }

  function Process(s: ServerState, e: Event): (r: Ran)
    requires Paired(s)
    ensures Paired(r.state)
  {
    if e.fd == s.listener then
      AcceptPairs(s, e.accepts);
      Ran(AcceptAll(s, e.accepts), Running)
    else
      Deliver(s, e.fd, e.ready)
  }

  lemma {:induction false} AcceptPairs(s: ServerState, answers: seq<AcceptAnswer>)
    requires Paired(s)
    ensures Paired(AcceptAll(s, answers))
    ensures AcceptAll(s, answers).listener == s.listener
    decreases |answers|
  {
    if answers != [] {
      match answers[0]
      case Connection(_, _, _) => AcceptPairs(Admit(s, answers[0]), answers[1..]);
      case AcceptInterrupted => AcceptPairs(s, answers[1..]);
      case _ =>
    }
  }

  function ProcessAll(s: ServerState, events: seq<Event>): (r: Ran)
    requires Paired(s)
    ensures Paired(r.state)
    decreases |events|
  {
    if events == [] then Ran(s, Running)
    else
      var r := Process(s, events[0]);
      if r.status.Running? then ProcessAll(r.state, events[1..]) else r
  }

  /** The script of `epoll_wait` ends where the stop flag is found set. */
  function Serve(s: ServerState, waits: seq<WaitAnswer>): (r: Ran)
    requires Paired(s)
    ensures Paired(r.state)
    decreases |waits|
  {
    if waits == [] then Ran(s, Running)
    else
      match waits[0]
      case WaitInterrupted => Serve(s, waits[1..])
      case WaitFailed => Ran(s, Failed)
      case Batch(events) =>
        var r := ProcessAll(s, events);
        if r.status.Running? then Serve(r.state, waits[1..]) else r
  }

  // ---------- What the kernel promises ----------

  /** `accept` gives a descriptor that is not open. */
  predicate AcceptsFeasible(s: ServerState, answers: seq<AcceptAnswer>)
    decreases |answers|
  {
    answers == [] ||
    match answers[0]
    case Connection(fd, _, _) =>
      fd >= 0 && fd != s.listener && fd !in s.open && AcceptsFeasible(Admit(s, answers[0]), answers[1..])
    case AcceptInterrupted => AcceptsFeasible(s, answers[1..])
    case _ => true
  }

  predicate EventFeasible(s: ServerState, e: Event) {
    e.fd == s.listener ==> AcceptsFeasible(s, e.accepts)
  }

  predicate Feasible(s: ServerState, events: seq<Event>)
    requires Paired(s)
    decreases |events|
  {
    events == [] ||
    (EventFeasible(s, events[0]) &&
     var r := Process(s, events[0]); r.status.Running? ==> Feasible(r.state, events[1..]))
  }

  predicate AllDifferent(events: seq<Event>) {
    forall i, j :: 0 <= i < j < |events| ==> events[i].fd != events[j].fd
  }

  /** A batch names each descriptor at most once, and only descriptors that are registered. */
  predicate BatchOk(s: ServerState, events: seq<Event>) {
    && AllDifferent(events)
    && (forall i :: 0 <= i < |events| ==> events[i].fd == s.listener || events[i].fd in s.interest)
  }

  predicate ServeFeasible(s: ServerState, waits: seq<WaitAnswer>)
    requires Paired(s)
    decreases |waits|
  {
    waits == [] ||
    match waits[0]
    case WaitInterrupted => ServeFeasible(s, waits[1..])
    case WaitFailed => true
    case Batch(events) =>
      && BatchOk(s, events)
      && Feasible(s, events)
      && (var r := ProcessAll(s, events); r.status.Running? ==> ServeFeasible(r.state, waits[1..]))
  }

  // ---------- The invariant ----------

  /**
   * The table, the interest set and the open client descriptors agree; each session is about the
   * descriptor it is filed under and keeps its own invariant, and no reply is stranded.
   */
  ghost predicate ServerInv(s: ServerState) {
    && s.sessions.Keys == s.interest.Keys == s.open
    && s.listener !in s.open
    && forall fd :: fd in s.sessions ==> SessionInv(fd, s.sessions[fd], s.interest[fd])
  }

  ghost predicate SessionInv(fd: int, s: State, mask: Mask) {
    s.fd == fd && StateInv(s) && MaskInv(s, mask)
  }

  // ---------- Who owns the descriptors ----------

  /** The place of the handle that the accept loop has in a local variable. */
  const LOCAL := -2

  /** Each of these descriptors is in the handle of the session filed under it, and nothing else is in any handle. */
  predicate Owns(p: Resources.Pool, fds: set<int>) {
    && p.handles.Keys == fds
    && forall fd :: fd in fds ==> fd >= 0 && p.handles[fd] == Resources.Handle(fd, Resources.Present)
  }

  lemma OwnedIsHeld(p: Resources.Pool, fds: set<int>)
    requires Owns(p, fds)
    ensures Resources.Held(p) == fds
  {
    forall fd | fd in fds ensures fd in Resources.Held(p) {
      assert Resources.Valid(p.handles[fd]) && p.handles[fd].resource == fd;
    }
  }

  /** The handle of a connection just accepted, in a local variable. */
  function Accepted(p: Resources.Pool, fd: int): Resources.Pool
    requires LOCAL !in p.handles
  {
    Resources.Do(p, Resources.Construct(LOCAL, fd, Resources.Present))
  }

  /** It ends with its scope, and closes the descriptor unless it was moved into a session before. */
  lemma AcceptedOwns(p: Resources.Pool, fds: set<int>, fd: int)
    requires Owns(p, fds) && fd >= 0 && fd !in fds
    ensures LOCAL !in p.handles && LOCAL in Accepted(p, fd).handles && fd !in Accepted(p, fd).handles
    ensures var q := Resources.Do(Accepted(p, fd), Resources.Destroy(LOCAL));
            Owns(q, fds) && Resources.Held(q) == fds
    ensures var moved := Resources.Do(Accepted(p, fd), Resources.MoveConstruct(fd, LOCAL));
            LOCAL in moved.handles &&
            var q := Resources.Do(moved, Resources.Destroy(LOCAL));
            Owns(q, fds + {fd}) && Resources.Held(q) == fds + {fd}
  {
    OwnedIsHeld(Resources.Do(Accepted(p, fd), Resources.Destroy(LOCAL)), fds);
    var moved := Resources.Do(Accepted(p, fd), Resources.MoveConstruct(fd, LOCAL));
    OwnedIsHeld(Resources.Do(moved, Resources.Destroy(LOCAL)), fds + {fd});
  }

  lemma ClosedOwns(p: Resources.Pool, fds: set<int>, fd: int)
    requires Owns(p, fds) && fd in fds
    ensures fd in p.handles &&
            var q := Resources.Do(p, Resources.Destroy(fd));
            Owns(q, fds - {fd}) && Resources.Held(q) == fds - {fd}
  {
    OwnedIsHeld(Resources.Do(p, Resources.Destroy(fd)), fds - {fd});
  }

  // ---------- The class ----------

  class Server {
    const listener: int
    var table: map<int, Session>
    ghost var interest: map<int, Mask>
    ghost var open: set<int>
    ghost var pool: Resources.Pool

    ghost function States(): (m: map<int, State>)
      reads this`table, table.Values
      ensures m.Keys == table.Keys
    {
      map fd | fd in table :: table[fd].Abs()
    }

    ghost function Abs(): ServerState
      reads this, table.Values
    {
      ServerState(listener, States(), interest, open)
    }

    /** No two descriptors share a session object. */
    ghost predicate Distinct()
      reads this`table
    {
      forall f, g :: f in table && g in table && table[f] == table[g] ==> f == g
    }

    /** The open client descriptors are those that the handles own. */
    ghost predicate Valid()
      reads this, table.Values
    {
      && Owns(pool, open)
      && Paired(Abs())
      && ServerInv(Abs())
      && Distinct()
    }

    constructor (listener: int)
      ensures Valid() && Abs() == Boot(listener) && table == map[]
    {
      this.listener := listener;
      table, interest := map[], map[];
      pool, open := Resources.EMPTY_POOL, {};
    }

    /** What the server is depends on its table, its interest, the open descriptors and its sessions. */
    twostate lemma Restored()
      requires old(Valid()) && unchanged(this`table) && unchanged(this`interest) && unchanged(table.Values)
      requires open == old(open) && Owns(pool, open)
      ensures Valid() && Abs() == old(Abs())
    {
      hide ServerInv, States, Distinct, Owns;
    }

    twostate lemma SameStates()
      requires unchanged(this`table) && unchanged(table.Values)
      ensures States() == old(States())
    {
    }

    /** What filing a fresh session makes of the server. */
    twostate lemma Admitted(a: AcceptAnswer)
      requires old(Valid()) && a.Connection? && a.addOk && a.nameOk && a.fd != listener && a.fd !in old(open)
      requires open == old(open) + {a.fd} && Owns(pool, open) && interest == old(interest)[a.fd := READ_ONLY]
      requires States() == old(States())[a.fd := Fresh(a.fd)] && Distinct()
      ensures Valid() && Abs() == Admit(old(Abs()), a)
    {
      AdmitKeeps(old(Abs()), a);
      hide ServerInv, States, Distinct, Owns;
    }

    /** The handle of an accepted connection is moved into a session before its scope ends. */
    ghost method MoveHandle(fd: int)
      requires Owns(pool, open) && fd >= 0 && fd !in open
      modifies this`open, this`pool
      ensures Owns(pool, open) && open == old(open) + {fd}
    {
      AcceptedOwns(pool, open, fd);
      hide Owns, Resources.Held;
      pool := Accepted(pool, fd);
      pool := Resources.Do(pool, Resources.MoveConstruct(fd, LOCAL));
      pool := Resources.Do(pool, Resources.Destroy(LOCAL));
      open := Resources.Held(pool);
    }

    /** The handle of an accepted connection still has the descriptor when its scope ends. */
    ghost method DropHandle(fd: int)
      requires Owns(pool, open) && fd >= 0 && fd !in open
      modifies this`open, this`pool
      ensures Owns(pool, open) && open == old(open)
    {
      AcceptedOwns(pool, open, fd);
      hide Owns, Resources.Held;
      pool := Accepted(pool, fd);
      pool := Resources.Do(pool, Resources.Destroy(LOCAL));
      open := Resources.Held(pool);
    }

    /** Epoll takes the connection, and its peer has a name. */
    method AdmitConnection(a: AcceptAnswer)
      requires Valid() && a.Connection? && a.fd >= 0 && a.fd != listener && a.fd !in open && a.addOk && a.nameOk
      modifies this`table, this`interest, this`open, this`pool
      ensures Valid() && Abs() == Admit(old(Abs()), a)
      ensures forall f :: f in old(table) ==> f in table && table[f] == old(table[f])
      ensures forall o :: o in table.Values ==> fresh(o) || o in old(table.Values)
    {
      assert a.fd !in table;
      hide ServerInv, States, Distinct, Owns, Admit;
      interest := interest[a.fd := READ_ONLY];
      MoveHandle(a.fd);
      SameStates();
      FileSession(a.fd);
      Admitted(a);
    }

    /** Epoll refuses the connection, or its peer has no name; closing it also ends epoll's interest in it. */
    method RefuseConnection(a: AcceptAnswer)
      requires Valid() && a.Connection? && a.fd >= 0 && a.fd !in open && !(a.addOk && a.nameOk)
      modifies this`interest, this`open, this`pool
      ensures Valid() && Abs() == Admit(old(Abs()), a)
    {
      ClosingUndoes(interest, a.fd);
      hide ServerInv, States, Distinct, Owns;
      if a.addOk {
        interest := interest[a.fd := READ_ONLY];
      }
      DropHandle(a.fd);
      interest := interest - {a.fd};
      Restored();
    }

    /** One turn of the accept loop, for a connection; `accept` has just opened the descriptor. */
    method TakeConnection(a: AcceptAnswer)
      requires Valid() && a.Connection? && a.fd >= 0 && a.fd != listener && a.fd !in open
      modifies this`table, this`interest, this`open, this`pool
      ensures Valid() && Abs() == Admit(old(Abs()), a)
      ensures forall f :: f in old(table) ==> f in table && table[f] == old(table[f])
      ensures forall o :: o in table.Values ==> fresh(o) || o in old(table.Values)
    {
      hide ServerInv, States, Distinct, Owns, Admit;
      if a.addOk && a.nameOk {
        AdmitConnection(a);
      } else {
        RefuseConnection(a);
      }
    }

    /** A fresh session goes into the table under its descriptor. */
    method FileSession(fd: int)
      requires fd !in table && Distinct()
      modifies this`table
      ensures table.Keys == old(table).Keys + {fd} && fresh(table[fd])
      ensures Distinct() && forall f :: f in old(table) ==> table[f] == old(table[f])
      ensures States() == old(States())[fd := Fresh(fd)]
      ensures forall o :: o in table.Values ==> fresh(o) || o in old(table.Values)
    {
      ghost var before := States();
      var session := new Session(fd);
      table := table[session.fd := session];
      assert States() == before[fd := Fresh(fd)];
    }

    method AcceptNewConnections(answers: seq<AcceptAnswer>)
      requires Valid() && AcceptsFeasible(Abs(), answers)
      modifies this`table, this`interest, this`open, this`pool
      ensures Valid() && Abs() == AcceptAll(old(Abs()), answers)
      ensures forall f :: f in old(table) ==> f in table && table[f] == old(table[f])
      ensures forall o :: o in table.Values ==> fresh(o) || o in old(table.Values)
    {
      var left := answers;
      while true
        invariant Valid() && AcceptsFeasible(Abs(), left)
        invariant AcceptAll(Abs(), left) == AcceptAll(old(Abs()), answers)
        invariant forall f :: f in old(table) ==> f in table && table[f] == old(table[f])
        invariant forall o :: o in table.Values ==> fresh(o) || o in old(table.Values)
        decreases |left|
      {
        hide ServerInv, Admit;
        var answer := if left == [] then AcceptAgain else left[0];
        left := if left == [] then [] else left[1..];
        match answer
        case AcceptAgain => break;
        case AcceptInterrupted => continue;
        case AcceptFailed => break;
        case Connection(_, _, _) => TakeConnection(answer);
      }
    }

    /** False where the source throws. */
    method UpdateEpollEvents(fd: int, mask: Mask, modOk: bool) returns (ok: bool)
      modifies this`interest
      ensures ok == modOk
      ensures interest == if ok then old(interest)[fd := mask] else old(interest)
    {
      if modOk {
        interest := interest[fd := mask];
      }
      return modOk;
    }

    method HandleOutEvent(session: Session, fd: int, r: Readiness) returns (outcome: Outcome)
      requires fd in interest
      modifies this`interest, session
      ensures fd in interest
      ensures Step(session.Abs(), interest[fd], outcome) == OnWritable(old(session.Abs()), old(interest[fd]), r)
      ensures interest == old(interest)[fd := interest[fd]]
    {
      var alive := session.TrySend(r.sends);
      if !alive {
        return Closing;
      }
      if session.SendBufferEmpty() {
        var ok := UpdateEpollEvents(fd, READ_ONLY, r.disarmOk);
        if !ok {
          return Threw;
        }
      }
      return Alive;
    }

    method HandleInEvent(session: Session, fd: int, r: Readiness) returns (outcome: Outcome)
      requires fd in interest
      requires Shape(ParserOf(session.Abs()))
      modifies this`interest, session
      ensures fd in interest
      ensures Step(session.Abs(), interest[fd], outcome) == OnReadable(old(session.Abs()), old(interest[fd]), r)
      ensures interest == old(interest)[fd := interest[fd]]
    {
      hide Drain, Flush, Scan, Pending, ParsedTo, Iterate, Judge;
      var alive := session.TryRecv(r.recvs);
      if !alive {
        return Closing;
      }
      var hung := session.ParseMessage();
      if hung {
        return Hung;
      }
      if session.IsMessageComplete() {
        var kind := session.GetMessageType();
        if kind.None? {
          return Threw;
        }
        if kind.value == TYPE_AUTH {
          var ok := session.HandleAuthRequest();
          alive := session.SendAuthResponse(ok, r.replySends);
          if !alive {
            return Closing;
          }
          if !session.SendBufferEmpty() {
            var armed := UpdateEpollEvents(fd, READ_WRITE, r.armOk);
            if !armed {
              return Threw;
            }
          }
        } else if kind.value == TYPE_IMAGE {
          session.HandleImgMessage();
        }
      }
      return Alive;
    }

    /** What is left in the table when a session is taken out. */
    twostate lemma Removed(fd: int)
      requires old(Distinct()) && table == old(table) - {fd} && unchanged(old(table).Values)
      ensures Distinct() && table.Keys == old(table).Keys - {fd} && States() == old(States()) - {fd}
    {
    }

    /** The descriptor leaves epoll and the table; the handle goes with the last reference to the session. */
    method CloseSession(session: Session)
      requires session.fd in open && Owns(pool, open) && Distinct()
      modifies this`table, this`interest, this`open, this`pool
      ensures table == old(table) - {session.fd} && Owns(pool, open) && Distinct()
      ensures Abs() == Close(old(Abs()), session.fd)
    {
      ClosedOwns(pool, open, session.fd);
      hide Owns, Distinct, States, Resources.Held, Resources.Do;
      interest := interest - {session.fd};
      table := table - {session.fd};
      pool := Resources.Do(pool, Resources.Destroy(session.fd));
      open := Resources.Held(pool);
      Removed(session.fd);
    }

    /** The three tests of `HandleEvent`, up to the decision what becomes of the session. */
    method Dispatch(session: Session, fd: int, r: Readiness) returns (outcome: Outcome)
      requires fd in interest
      requires Shape(ParserOf(session.Abs()))
      modifies this`interest, session
      ensures fd in interest
      ensures Step(session.Abs(), interest[fd], outcome) == OnEvent(old(session.Abs()), old(interest[fd]), r)
      ensures interest == old(interest)[fd := interest[fd]]
    {
      hide OnReadable, Flush, StateInv;
      if r.error {
        return Closing;
      }
      outcome := Alive;
      if r.writable {
        outcome := HandleOutEvent(session, fd, r);
        if !outcome.Alive? {
          return;
        }
        SendLeavesQueue(old(session.Abs()), r.sends);
      }
      if r.readable {
        outcome := HandleInEvent(session, fd, r);
      }
    }

    /** `served` is the session object that the report went to. */
    method HandleEvent(fd: int, r: Readiness) returns (status: Status, ghost served: Session?)
      requires Valid()
      modifies this`table, this`interest, this`open, this`pool, table.Values
      ensures Ran(Abs(), status) == Deliver(old(Abs()), fd, r)
      ensures served == if fd in old(table) then old(table)[fd] else null
      ensures table.Values <= old(table.Values)
      ensures forall f :: f in old(table) && f != fd ==> f in table && table[f] == old(table[f])
      ensures status.Running? ==> Valid()
    {
      hide OnEvent, StateInv, MaskInv, Distinct, Owns, Resources.Held;
      ghost var before := Abs();
      if fd !in table {
        return Running, null;
      }
      var session := table[fd];
      served := session;
      assert SessionInv(fd, before.sessions[fd], before.interest[fd]);
      DeliverKeeps(before, fd, r);
      InvHasShape(session.Abs());
      var outcome := Dispatch(session, fd, r);
      ghost var st := OnEvent(before.sessions[fd], before.interest[fd], r);
      Filed(before, fd, st);
      match outcome
      case Closing =>
        CloseSession(session);
        CloseForgets(before, fd, st);
        status := Running;
      case Hung => status := Stuck;
      case Threw => status := Failed;
      case Alive => status := Running;
    }

    /** One report of `epoll_wait`. */
    method HandleReport(e: Event) returns (status: Status, ghost served: Session?)
      requires Valid() && EventFeasible(Abs(), e)
      modifies this`table, this`interest, this`open, this`pool, table.Values
      ensures Ran(Abs(), status) == Process(old(Abs()), e)
      ensures e.fd != listener ==> served == if e.fd in old(table) then old(table)[e.fd] else null
      ensures status.Running? ==> Valid()
      ensures forall o :: o in table.Values ==> fresh(o) || o in old(table.Values)
      ensures forall f :: f in old(table) && f != e.fd ==> f in table && table[f] == old(table[f])
    {
      hide ServerInv, Deliver, AcceptAll, AcceptsFeasible;
      if e.fd == listener {
        AcceptNewConnections(e.accepts);
        return Running, null;
      }
      status, served := HandleEvent(e.fd, e.ready);
    }

    /** Each client's report went to the session object that was filed under its descriptor. */
    ghost predicate Reached(filed: map<int, Session>, events: seq<Event>, served: seq<Session?>) {
      && |served| <= |events|
      && forall j :: 0 <= j < |served| && events[j].fd != listener ==>
           events[j].fd in filed && served[j] == filed[events[j].fd]
    }

    lemma ReachedNext(filed: map<int, Session>, events: seq<Event>, served: seq<Session?>, session: Session?)
      requires Reached(filed, events, served) && |served| < |events|
      requires var fd := events[|served|].fd; fd != listener ==> fd in filed && session == filed[fd]
      ensures Reached(filed, events, served + [session])
    {
    }

    /** The clients whose reports come at `i` or later still have the objects they had. */
    ghost predicate StillFiled(now: map<int, Session>, filed: map<int, Session>, events: seq<Event>, i: nat) {
      forall j :: i <= j < |events| && events[j].fd != listener ==>
        events[j].fd in now && events[j].fd in filed && now[events[j].fd] == filed[events[j].fd]
    }

    lemma StillFiledNext(
      now: map<int, Session>, next: map<int, Session>, filed: map<int, Session>, events: seq<Event>, i: nat)
      requires i < |events| && StillFiled(now, filed, events, i)
      requires AllDifferent(events)
      requires forall f :: f in now && f != events[i].fd ==> f in next && next[f] == now[f]
      ensures StillFiled(next, filed, events, i + 1)
    {
    }

    /** The server is about to handle the reports from the `i`-th on. */
    ghost predicate Serving(events: seq<Event>, i: nat)
      reads this, table.Values
    {
      Valid() && i <= |events| && Feasible(Abs(), events[i..])
    }

    /** The turn of one report in a batch. */
    method HandleNext(events: seq<Event>, i: nat, ghost filed: map<int, Session>)
      returns (status: Status, ghost served: Session?)
      requires Serving(events, i) && i < |events| && StillFiled(table, filed, events, i)
      requires AllDifferent(events)
      modifies this`table, this`interest, this`open, this`pool, table.Values
      ensures status.Running? ==> Serving(events, i + 1) && StillFiled(table, filed, events, i + 1)
      ensures Paired(old(Abs())) && ProcessAll(old(Abs()), events[i..]) ==
              if status.Running? then ProcessAll(Abs(), events[i + 1..]) else Ran(Abs(), status)
      ensures var fd := events[i].fd; fd != listener ==> fd in filed && served == filed[fd]
      ensures forall o :: o in table.Values ==> fresh(o) || o in old(table.Values)
    {
      hide ServerInv, Process, EventFeasible, StillFiled;
      assert events[i..][0] == events[i] && events[i..][1..] == events[i + 1..];
      ghost var now := table;
      FiledNow(now, filed, events, i);
      status, served := HandleReport(events[i]);
      StillFiledNext(now, table, filed, events, i);
    }

    /**
     * The events of one `epoll_wait`.  Every report reaches the very session object that was filed
     * under its descriptor when the batch began, whatever was closed and accepted in between:
     * `served` lists the objects reached, with nothing where the accept loop ran.
     */
    method HandleBatch(events: seq<Event>) returns (status: Status, ghost served: seq<Session?>)
      requires Valid() && BatchOk(Abs(), events) && Feasible(Abs(), events)
      modifies this`table, this`interest, this`open, this`pool, table.Values
      ensures Ran(Abs(), status) == ProcessAll(old(Abs()), events)
      ensures status.Running? ==> Valid()
      ensures Reached(old(table), events, served) && (status.Running? ==> |served| == |events|)
      ensures forall o :: o in table.Values ==> fresh(o) || o in old(table.Values)
    {
      RegisteredIsFiled(events);
      assert events[0..] == events;
      assert Serving(events, 0);
      ghost var filed := table;
      ghost var whole := ProcessAll(Abs(), events);
      hide Valid, ProcessAll, Feasible, StillFiled, Reached, BatchOk, AllDifferent, Serving;
      status, served := Running, [];
      var i := 0;
      while i < |events|
        invariant 0 <= i <= |events| && status.Running? && |served| == i
        invariant Serving(events, i) && Paired(Abs()) && ProcessAll(Abs(), events[i..]) == whole
        invariant forall o :: o in table.Values ==> fresh(o) || o in old(table.Values)
        invariant StillFiled(table, filed, events, i) && Reached(filed, events, served)
      {
        ghost var session: Session?;
        status, session := HandleNext(events, i, filed);
        ReachedNext(filed, events, served, session);
        served := served + [session];
        if !status.Running? {
          return;
        }
        i := i + 1;
        ServingIsValid(events, i);
      }
      ServingIsValid(events, i);
      NoneLeft(Abs(), events);
    }

    lemma ServingIsValid(events: seq<Event>, i: nat)
      requires Serving(events, i)
      ensures Valid() && Paired(Abs())
    {
    }

    lemma NoneLeft(s: ServerState, events: seq<Event>)
      requires Paired(s)
      ensures ProcessAll(s, events[|events|..]) == Ran(s, Running)
    {
    }

    lemma FiledNow(now: map<int, Session>, filed: map<int, Session>, events: seq<Event>, i: nat)
      requires i < |events| && StillFiled(now, filed, events, i)
      ensures var fd := events[i].fd; fd != listener ==> fd in now && fd in filed && now[fd] == filed[fd]
    {
    }

    lemma RegisteredIsFiled(events: seq<Event>)
      requires Valid() && BatchOk(Abs(), events)
      ensures AllDifferent(events) && StillFiled(table, table, events, 0) && Reached(table, events, [])
    {
      assert Abs().sessions.Keys == table.Keys;
    }

    /** The script of `epoll_wait` ends where the stop flag is found set. */
    method EventLoop(waits: seq<WaitAnswer>) returns (status: Status)
      requires Valid() && ServeFeasible(Abs(), waits)
      modifies this`table, this`interest, this`open, this`pool, table.Values
      ensures Ran(Abs(), status) == Serve(old(Abs()), waits)
      ensures status.Running? ==> Valid()
    {
      var i := 0;
      assert waits[0..] == waits;
      while i < |waits|
        invariant 0 <= i <= |waits|
        invariant Valid() && ServeFeasible(Abs(), waits[i..])
        invariant Serve(Abs(), waits[i..]) == Serve(old(Abs()), waits)
        invariant forall o :: o in table.Values ==> fresh(o) || o in old(table.Values)
        decreases |waits| - i
      {
        hide ServerInv, ProcessAll, Feasible;
        assert waits[i..][0] == waits[i] && waits[i..][1..] == waits[i + 1..];
        match waits[i] {
          case WaitInterrupted =>
          case WaitFailed =>
            return Failed;
          case Batch(events) =>
            ghost var served: seq<Session?>;
            status, served := HandleBatch(events);
            if !status.Running? {
              return;
            }
        }
        i := i + 1;
      }
      return Running;
    }

    /** An object in the table that has moved on moves the abstract table on. */
    lemma Filed(before: ServerState, fd: int, st: Step)
      requires fd in table && table.Keys == before.sessions.Keys && listener == before.listener
      requires open == before.open && fd in interest && interest == before.interest[fd := st.mask]
      requires table[fd].Abs() == st.state
      requires forall f :: f in table && f != fd ==> table[f].Abs() == before.sessions[f]
      ensures Abs() == Update(before, fd, st)
    {
      assert States() == before.sessions[fd := st.state];
    }
  }

  lemma InvHasShape(s: State)
    requires StateInv(s)
    ensures Shape(ParserOf(s))
  {
  }

  /** Registering a descriptor or not, and closing it, leaves no trace. */
  lemma ClosingUndoes(interest: map<int, Mask>, fd: int)
    requires fd !in interest
    ensures interest - {fd} == interest[fd := READ_ONLY] - {fd} == interest
  {
  }

  lemma AdmitKeeps(s: ServerState, a: AcceptAnswer)
    requires ServerInv(s) && a.Connection? && a.fd != s.listener && a.fd !in s.open
    ensures ServerInv(Admit(s, a))
  {
    hide StateInv, MaskInv;
    FreshHolds(a.fd);
    var t := Admit(s, a);
    forall fd | fd in t.sessions ensures SessionInv(fd, t.sessions[fd], t.interest[fd]) {
      assert fd in s.sessions ==> SessionInv(fd, s.sessions[fd], s.interest[fd]);
    }
  }

  lemma CloseForgets(s: ServerState, fd: int, st: Step)
    ensures Close(Update(s, fd, st), fd) == Close(s, fd)
  {
    assert s.sessions[fd := st.state] - {fd} == s.sessions - {fd};
    assert s.interest[fd := st.mask] - {fd} == s.interest - {fd};
  }

  lemma DeliverKeeps(s: ServerState, fd: int, r: Readiness)
    requires ServerInv(s)
    ensures Deliver(s, fd, r).status.Running? ==> ServerInv(Deliver(s, fd, r).state)
  {
    hide OnEvent, StateInv;
    if fd in s.sessions {
      assert SessionInv(fd, s.sessions[fd], s.interest[fd]);
      EventKeeps(s.sessions[fd], s.interest[fd], r);
      var st := OnEvent(s.sessions[fd], s.interest[fd], r);
      if st.outcome.Alive? {
        assert SessionInv(fd, st.state, st.mask);
      }
    }
  }
}
