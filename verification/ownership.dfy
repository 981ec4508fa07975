/**
 * Who owns the descriptors that the server has open: the handle that `accept` fills, the move of it
 * into a session, and the session's end, as operations on a pool of handles.
 */
module Ownership {
  import opened Sessions
  import opened Servers
  import opened ServerLaws
  import opened UniqueResources

  // ---------- What the server does with handles ----------

  /** A handle for the descriptor just accepted is made in a local variable, moved if it is kept, and goes. */
  function AdmitOps(a: AcceptAnswer): seq<Op>
    requires a.Connection?
  {
    [Construct(LOCAL, a.fd, Present)] +
    (if a.addOk && a.nameOk then [MoveConstruct(a.fd, LOCAL)] else []) +
    [Destroy(LOCAL)]
  }

  /** `accept` gave no descriptor; the handle is made all the same. */
  const FAILED_OPS := [Construct(LOCAL, -1, Present), Destroy(LOCAL)]

  function AcceptOps(answers: seq<AcceptAnswer>): seq<Op> {
    if answers == [] then FAILED_OPS
    else
      match answers[0]
      case Connection(_, _, _) => AdmitOps(answers[0]) + AcceptOps(answers[1..])
      case AcceptInterrupted => FAILED_OPS + AcceptOps(answers[1..])
      case _ => FAILED_OPS
  }

  /** A session that is closed takes its handle with it. */
  function EventOps(s: ServerState, e: Event): seq<Op>
    requires Paired(s)
  {
    if e.fd == s.listener then AcceptOps(e.accepts)
    else if e.fd in s.sessions && OnEvent(s.sessions[e.fd], s.interest[e.fd], e.ready).outcome.Closing?
    then [Destroy(e.fd)]
    else []
  }

  function RunOps(s: ServerState, events: seq<Event>): seq<Op>
    requires Paired(s)
    decreases |events|
  {
    if events == [] then []
    else
      var r := Process(s, events[0]);
      EventOps(s, events[0]) + if r.status.Running? then RunOps(r.state, events[1..]) else []
  }

  // ---------- What it comes to ----------

  lemma AdmitOwns(s: ServerState, p: Pool, a: AcceptAnswer)
    requires Owns(p, s.open) && a.Connection? && a.fd >= 0 && a.fd !in s.open
    ensures Sound(p, AdmitOps(a)) && Owns(DoAll(p, AdmitOps(a)), Admit(s, a).open)
  {
    OwnedIsHeld(p, s.open);
    AcceptedOwns(p, s.open, a.fd);
    hide Owns, Held;
    var made := Construct(LOCAL, a.fd, Present);
    assert Do(p, made) == Accepted(p, a.fd) && Apart(p, made);
    if a.addOk && a.nameOk {
      var moved := Do(Accepted(p, a.fd), MoveConstruct(a.fd, LOCAL));
      EndsWith(moved, []);
      SoundNext(Accepted(p, a.fd), MoveConstruct(a.fd, LOCAL), [Destroy(LOCAL)]);
      SoundNext(p, made, [MoveConstruct(a.fd, LOCAL)] + [Destroy(LOCAL)]);
      assert AdmitOps(a) == [made] + ([MoveConstruct(a.fd, LOCAL)] + [Destroy(LOCAL)]);
    } else {
      EndsWith(Accepted(p, a.fd), []);
      SoundNext(p, made, [Destroy(LOCAL)]);
      assert AdmitOps(a) == [made] + [Destroy(LOCAL)];
    }
  }

  /** The last operation of a scope. */
  lemma EndsWith(p: Pool, none: seq<Op>)
    requires LOCAL in p.handles && none == []
    ensures Sound(p, [Destroy(LOCAL)]) && DoAll(p, [Destroy(LOCAL)]) == Do(p, Destroy(LOCAL))
  {
    SoundNext(p, Destroy(LOCAL), none);
    assert [Destroy(LOCAL)] + none == [Destroy(LOCAL)];
  }

  lemma FailedOwns(p: Pool, fds: set<int>)
    requires Owns(p, fds)
    ensures Sound(p, FAILED_OPS) && Owns(DoAll(p, FAILED_OPS), fds)
  {
    var made := Construct(LOCAL, -1, Present);
    assert LOCAL !in p.handles;
    EndsWith(Do(p, made), []);
    SoundNext(p, made, [Destroy(LOCAL)]);
    assert FAILED_OPS == [made] + [Destroy(LOCAL)];
    assert Do(Do(p, made), Destroy(LOCAL)).handles == p.handles;
  }

  lemma {:induction false} AcceptOwns(s: ServerState, p: Pool, answers: seq<AcceptAnswer>)
    requires Owns(p, s.open) && AcceptsFeasible(s, answers)
    ensures Sound(p, AcceptOps(answers)) && Owns(DoAll(p, AcceptOps(answers)), AcceptAll(s, answers).open)
    decreases |answers|
  {
    hide Owns, Usable, AllApart, DoAll, AdmitOps, Loosens;
    FailedOwns(p, s.open);
    if answers != [] {
      match answers[0]
      case Connection(_, _, _) =>
        var a := answers[0];
        AdmitOwns(s, p, a);
        AcceptOwns(Admit(s, a), DoAll(p, AdmitOps(a)), answers[1..]);
        SoundAppend(p, AdmitOps(a), AcceptOps(answers[1..]));
      case AcceptInterrupted =>
        AcceptOwns(s, DoAll(p, FAILED_OPS), answers[1..]);
        SoundAppend(p, FAILED_OPS, AcceptOps(answers[1..]));
      case _ =>
    }
  }

  lemma EventOwns(s: ServerState, p: Pool, e: Event)
    requires ServerInv(s) && EventFeasible(s, e) && Owns(p, s.open)
    ensures Sound(p, EventOps(s, e)) && Owns(DoAll(p, EventOps(s, e)), Process(s, e).state.open)
  {
    hide OnEvent, SessionInv;
    if e.fd == s.listener {
      AcceptOwns(s, p, e.accepts);
    } else if e.fd in s.sessions && OnEvent(s.sessions[e.fd], s.interest[e.fd], e.ready).outcome.Closing? {
      ClosedOwns(p, s.open, e.fd);
      SoundNext(p, Destroy(e.fd), []);
      assert [Destroy(e.fd)] + [] == [Destroy(e.fd)];
    }
  }

  lemma {:induction false} RunOwns(s: ServerState, p: Pool, events: seq<Event>)
    requires ServerInv(s) && Feasible(s, events) && Owns(p, s.open)
    ensures Sound(p, RunOps(s, events)) && Owns(DoAll(p, RunOps(s, events)), ProcessAll(s, events).state.open)
    decreases |events|
  {
    hide ServerInv, Process, EventFeasible, EventOps, Owns, Usable, AllApart, DoAll, Loosens;
    InvIsPaired(s);
    if events == [] {
      NothingDone(p);
    } else {
      var ops := EventOps(s, events[0]);
      EventOwns(s, p, events[0]);
      ProcessKeeps(s, events[0]);
      var r := Process(s, events[0]);
      if r.status.Running? {
        RunOwns(r.state, DoAll(p, ops), events[1..]);
        SoundAppend(p, ops, RunOps(r.state, events[1..]));
      } else {
        assert RunOps(s, events) == ops + [] == ops;
      }
    }
  }

  lemma NothingDone(p: Pool)
    ensures Sound(p, []) && DoAll(p, []) == p
  {
  }

  /** Each descriptor has been closed once for each time it was put under a handle, less once if it is open. */
  ghost predicate Balanced(l: Ledger, open: set<int>) {
    && l.faulted == []
    && forall fd :: multiset(l.wrapped)[fd] == multiset(l.released)[fd] + if fd in open then 1 else 0
  }

  lemma SoundBalances(ops: seq<Op>)
    requires Sound(EMPTY_POOL, ops)
    ensures Balanced(DoAll(EMPTY_POOL, ops).ledger, Held(DoAll(EMPTY_POOL, ops)))
  {
    var p := DoAll(EMPTY_POOL, ops);
    forall fd ensures p.ledger.faulted == []
      ensures multiset(p.ledger.wrapped)[fd] == multiset(p.ledger.released)[fd] + if fd in Held(p) then 1 else 0
    {
      ReleasedExactlyOnce(ops, fd);
      hide DoAll, Held, Usable, AllApart, Loosens;
    }
  }

  /**
   * Over any run of the event loop the descriptors open are those in the handles of the sessions in
   * the table, each in the one handle of its own session; no handle calls a deleter that is missing;
   * and a descriptor has been closed once for each time it was accepted, less once if it is open.
   */
  lemma DescriptorsOwned(listener: int, waits: seq<WaitAnswer>)
    requires ServeFeasible(Boot(listener), waits) && Serve(Boot(listener), waits).status.Running?
    ensures var ops := RunOps(Boot(listener), ReportsServed(waits));
            Usable(EMPTY_POOL, ops) &&
            var t, p := Serve(Boot(listener), waits).state, DoAll(EMPTY_POOL, ops);
            && p.handles == (map fd | fd in t.sessions :: Handle(fd, Present))
            && Held(p) == t.open && Balanced(p.ledger, t.open)
  {
    var s, events := Boot(listener), ReportsServed(waits);
    var ops := RunOps(s, events);
    BootHolds(listener);
    ServeIsOneRun(s, waits);
    RunOwns(s, EMPTY_POOL, events);
    ServeKeeps(s, waits);
    var t, p := Serve(s, waits).state, DoAll(EMPTY_POOL, ops);
    OwnedIsHeld(p, t.open);
    SoundBalances(ops);
    hide Serve, RunOps, ServeFeasible, DoAll, Usable, AllApart, Held, Loosens, SessionInv, Balanced;
    assert t.sessions.Keys == t.open;
  }
}
