/** What the event loop keeps over every run, and how it treats its sessions. */
module ServerLaws {
  import opened Parsing
  import opened Framing
  import opened Sessions
  import opened SessionLaws
  import opened Servers

  // ---------- Agreement ----------

  lemma InvIsPaired(s: ServerState)
    requires ServerInv(s)
    ensures Paired(s)
  {
  }

  lemma {:induction false} AcceptKeeps(s: ServerState, answers: seq<AcceptAnswer>)
    requires ServerInv(s) && AcceptsFeasible(s, answers)
    ensures ServerInv(AcceptAll(s, answers))
    ensures forall fd :: fd in s.sessions ==>
              var t := AcceptAll(s, answers);
              fd in t.sessions && t.sessions[fd] == s.sessions[fd] && t.interest[fd] == s.interest[fd]
    decreases |answers|
  {
    hide StateInv, MaskInv;
    if answers != [] {
      match answers[0]
      case Connection(_, _, _) =>
        AdmitKeeps(s, answers[0]);
        AcceptKeeps(Admit(s, answers[0]), answers[1..]);
      case AcceptInterrupted => AcceptKeeps(s, answers[1..]);
      case _ =>
    }
  }

  lemma ProcessKeeps(s: ServerState, e: Event)
    requires ServerInv(s) && EventFeasible(s, e)
    ensures Process(s, e).status.Running? ==> ServerInv(Process(s, e).state)
  {
    if e.fd == s.listener {
      AcceptKeeps(s, e.accepts);
    } else {
      DeliverKeeps(s, e.fd, e.ready);
    }
  }

  lemma {:induction false} ProcessAllKeeps(s: ServerState, events: seq<Event>)
    requires ServerInv(s) && Feasible(s, events)
    ensures ProcessAll(s, events).status.Running? ==> ServerInv(ProcessAll(s, events).state)
    decreases |events|
  {
    hide ServerInv, Process, EventFeasible;
    if events != [] {
      InvIsPaired(s);
      ProcessKeeps(s, events[0]);
      var r := Process(s, events[0]);
      if r.status.Running? {
        ProcessAllKeeps(r.state, events[1..]);
      }
    }
  }

  /**
   * As long as the loop runs, whatever the kernel reports, table, interest set and open
   * descriptors agree, and every session keeps its invariant.
   */
  lemma {:induction false} ServeKeeps(s: ServerState, waits: seq<WaitAnswer>)
    requires ServerInv(s) && ServeFeasible(s, waits)
    ensures Serve(s, waits).status.Running? ==> ServerInv(Serve(s, waits).state)
    decreases |waits|
  {
    hide ServerInv, ProcessAll, Feasible;
    if waits != [] {
      match waits[0]
      case WaitInterrupted => ServeKeeps(s, waits[1..]);
      case WaitFailed =>
      case Batch(events) =>
        InvIsPaired(s);
        ProcessAllKeeps(s, events);
        var r := ProcessAll(s, events);
        if r.status.Running? {
          ServeKeeps(r.state, waits[1..]);
        }
    }
  }

  lemma BootHolds(listener: int)
    ensures ServerInv(Boot(listener))
  {
  }

  /**
   * Descriptors: whenever the loop is at work, the table of sessions, the epoll interest set and
   * the open client descriptors are about the same descriptors, each session is about the one it
   * is filed under, every session asks for input, and one with a reply waiting asks for room.
   */
  lemma DescriptorsAgree(listener: int, waits: seq<WaitAnswer>)
    requires ServeFeasible(Boot(listener), waits) && Serve(Boot(listener), waits).status.Running?
    ensures var t := Serve(Boot(listener), waits).state;
            && t.sessions.Keys == t.interest.Keys == t.open
            && forall fd :: fd in t.sessions ==>
                 && t.sessions[fd].fd == fd
                 && t.interest[fd].readable
                 && (t.sessions[fd].response != [] ==> t.interest[fd].writable)
  {
    BootHolds(listener);
    ServeKeeps(Boot(listener), waits);
    var t := Serve(Boot(listener), waits).state;
    hide Serve, StateInv;
    forall fd | fd in t.sessions
      ensures && t.sessions[fd].fd == fd
              && t.interest[fd].readable
              && (t.sessions[fd].response != [] ==> t.interest[fd].writable)
    {
      assert SessionInv(fd, t.sessions[fd], t.interest[fd]);
    }
  }

  /** The answers that the accept loop gets to before it stops. */
  function Taken(answers: seq<AcceptAnswer>): seq<AcceptAnswer> {
    if answers == [] || answers[0].AcceptAgain? || answers[0].AcceptFailed? then []
    else [answers[0]] + Taken(answers[1..])
  }

  /**
   * The accept loop files a session for exactly the connections it gets to that epoll takes and
   * whose peer has a name; every other connection it gets to is closed again.
   */
  lemma {:induction false} AdmittedExactlyWhen(s: ServerState, answers: seq<AcceptAnswer>, fd: int)
    ensures fd in AcceptAll(s, answers).sessions <==> fd in s.sessions || Connection(fd, true, true) in Taken(answers)
    ensures fd in AcceptAll(s, answers).open <==> fd in s.open || Connection(fd, true, true) in Taken(answers)
    decreases |answers|
  {
    if answers != [] {
      match answers[0]
      case Connection(_, _, _) => AdmittedExactlyWhen(Admit(s, answers[0]), answers[1..], fd);
      case AcceptInterrupted => AdmittedExactlyWhen(s, answers[1..], fd);
      case _ =>
    }
  }

  /** The connections that the accept loop gets to and keeps. */
  function Kept(answers: seq<AcceptAnswer>): seq<AcceptAnswer> {
    if answers == [] || answers[0].AcceptAgain? || answers[0].AcceptFailed? then []
    else
      (if answers[0].Connection? && answers[0].addOk && answers[0].nameOk then [answers[0]] else []) +
      Kept(answers[1..])
  }

  lemma OneMore(m: map<int, State>, fd: int, s: State)
    requires fd !in m
    ensures |m[fd := s]| == |m| + 1
  {
    assert m[fd := s].Keys == m.Keys + {fd};
    assert |m[fd := s]| == |m[fd := s].Keys|;
  }

  lemma {:induction false} AcceptAddsAll(s: ServerState, answers: seq<AcceptAnswer>)
    requires ServerInv(s) && AcceptsFeasible(s, answers)
    ensures |AcceptAll(s, answers).sessions| == |s.sessions| + |Kept(answers)|
    decreases |answers|
  {
    hide SessionInv, Fresh;
    if answers != [] {
      match answers[0]
      case Connection(fd, addOk, nameOk) =>
        AdmitKeeps(s, answers[0]);
        AcceptAddsAll(Admit(s, answers[0]), answers[1..]);
        OneMore(s.sessions, fd, Fresh(fd));
      case AcceptInterrupted => AcceptAddsAll(s, answers[1..]);
      case _ =>
    }
  }

  /** An interruption of `accept`, wherever it comes, makes no difference to the accept loop. */
  lemma {:induction false} AcceptInterruptionsVanish(
    s: ServerState, xs: seq<AcceptAnswer>, ys: seq<AcceptAnswer>)
    ensures AcceptAll(s, xs + [AcceptInterrupted] + ys) == AcceptAll(s, xs + ys)
    decreases |xs|
  {
    var all := xs + [AcceptInterrupted] + ys;
    if xs == [] {
      assert all[0] == AcceptInterrupted && all[1..] == ys == xs + ys;
    } else {
      assert all[0] == xs[0] == (xs + ys)[0];
      assert all[1..] == xs[1..] + [AcceptInterrupted] + ys && (xs + ys)[1..] == xs[1..] + ys;
      AcceptInterruptionsVanish(if xs[0].Connection? then Admit(s, xs[0]) else s, xs[1..], ys);
    }
  }

  /** EAGAIN and any other error end the accept loop: what is behind makes no difference. */
  lemma {:induction false} AcceptStops(
    s: ServerState, xs: seq<AcceptAnswer>, stop: AcceptAnswer, ys: seq<AcceptAnswer>)
    requires stop.AcceptAgain? || stop.AcceptFailed?
    ensures AcceptAll(s, xs + [stop] + ys) == AcceptAll(s, xs)
    decreases |xs|
  {
    var all := xs + [stop] + ys;
    if xs == [] {
      assert all[0] == stop;
    } else {
      assert all[0] == xs[0] && all[1..] == xs[1..] + [stop] + ys;
      AcceptStops(if xs[0].Connection? then Admit(s, xs[0]) else s, xs[1..], stop, ys);
    }
  }

  // ---------- Delivery within a batch ----------

  /** An event leaves every session of another descriptor as it was. */
  lemma OthersUntouched(s: ServerState, e: Event, fd: int)
    requires ServerInv(s) && EventFeasible(s, e)
    requires fd in s.sessions && fd != e.fd
    ensures var t := Process(s, e).state;
            fd in t.sessions && t.sessions[fd] == s.sessions[fd] && t.interest[fd] == s.interest[fd]
  {
    hide SessionInv, OnEvent;
    if e.fd == s.listener {
      AcceptKeeps(s, e.accepts);
    }
  }

  /**
   * Within a batch, when the turn of a client's report comes, the session filed under its
   * descriptor is the one that was filed there, in the same state, when `epoll_wait` returned.
   */
  lemma {:induction false} BatchDelivery(s: ServerState, events: seq<Event>, i: nat)
    requires ServerInv(s) && BatchOk(s, events) && Feasible(s, events)
    requires i < |events| && events[i].fd != s.listener
    requires ProcessAll(s, events[..i]).status.Running?
    ensures var fd := events[i].fd; var t := ProcessAll(s, events[..i]).state;
            && fd in s.sessions && fd in t.sessions
            && t.sessions[fd] == s.sessions[fd] && t.interest[fd] == s.interest[fd]
  {
    assert events[i].fd in s.sessions;
    forall k | 0 <= k < i ensures events[k].fd != events[i].fd {
    }
    FeasiblePrefix(s, events, i);
    UntouchedThroughout(s, events[..i], events[i].fd);
  }

  lemma {:induction false} FeasiblePrefix(s: ServerState, events: seq<Event>, i: nat)
    requires Paired(s) && Feasible(s, events) && i <= |events|
    ensures Feasible(s, events[..i])
    decreases i
  {
    hide Process, EventFeasible;
    if i > 0 {
      assert events[..i][0] == events[0] && events[..i][1..] == events[1..][..i - 1];
      var r := Process(s, events[0]);
      if r.status.Running? {
        FeasiblePrefix(r.state, events[1..], i - 1);
      }
    }
  }

  lemma {:induction false} UntouchedThroughout(s: ServerState, events: seq<Event>, fd: int)
    requires ServerInv(s) && Feasible(s, events) && ProcessAll(s, events).status.Running?
    requires fd in s.sessions && forall k :: 0 <= k < |events| ==> events[k].fd != fd
    ensures var t := ProcessAll(s, events).state;
            fd in t.sessions && t.sessions[fd] == s.sessions[fd] && t.interest[fd] == s.interest[fd]
    decreases |events|
  {
    hide ServerInv, Process, EventFeasible;
    if events != [] {
      InvIsPaired(s);
      OthersUntouched(s, events[0], fd);
      ProcessKeeps(s, events[0]);
      UntouchedThroughout(Process(s, events[0]).state, events[1..], fd);
    }
  }

  // ---------- Isolation ----------

  /** What a run reports of one descriptor. */
  function ReportsOf(fd: int, events: seq<Event>): seq<Readiness> {
    if events == [] then []
    else (if events[0].fd == fd then [events[0].ready] else []) + ReportsOf(fd, events[1..])
  }

  lemma ReportsNext(fd: int, events: seq<Event>)
    requires events != []
    ensures events[0].fd != fd ==> ReportsOf(fd, events) == ReportsOf(fd, events[1..])
    ensures events[0].fd == fd ==>
              ReportsOf(fd, events) != [] && ReportsOf(fd, events)[0] == events[0].ready
              && ReportsOf(fd, events)[1..] == ReportsOf(fd, events[1..])
  {
  }

  /** In `events`, the `k`-th one is for the listener, and the accept loop gets to a connection on `fd` and keeps it. */
  predicate BornAt(listener: int, events: seq<Event>, k: nat, fd: int) {
    && k < |events|
    && events[k].fd == listener
    && Connection(fd, true, true) in Taken(events[k].accepts)
  }

  /** Session `fd` at the end of a run is what it was at the start, moved on by its own reports. */
  predicate AloneSince(s: ServerState, events: seq<Event>, fd: int, end: Step) {
    fd in s.sessions && fd in s.interest &&
    RunSession(s.sessions[fd], s.interest[fd], ReportsOf(fd, events)) == end
  }

  /** Session `fd` at the end of a run is a fresh session moved on by the reports since it was accepted. */
  predicate AloneFrom(listener: int, events: seq<Event>, k: nat, fd: int, end: Step) {
    BornAt(listener, events, k, fd) && History(fd, ReportsOf(fd, events[k + 1..])) == end
  }

  lemma {:induction false} AcceptedWhere(s: ServerState, answers: seq<AcceptAnswer>, fd: int)
    requires Paired(s) && fd in AcceptAll(s, answers).sessions && fd !in s.sessions
    requires AcceptsFeasible(s, answers) && ServerInv(s)
    ensures Connection(fd, true, true) in Taken(answers)
    ensures var t := AcceptAll(s, answers);
            t.sessions[fd] == Fresh(fd) && fd in t.interest && t.interest[fd] == READ_ONLY
    decreases |answers|
  {
    hide StateInv, MaskInv;
    match answers[0]
    case Connection(f, addOk, nameOk) =>
      AdmitKeeps(s, answers[0]);
      var t := Admit(s, answers[0]);
      if fd in t.sessions {
        AcceptKeeps(t, answers[1..]);
      } else {
        AcceptedWhere(t, answers[1..], fd);
      }
    case AcceptInterrupted => AcceptedWhere(s, answers[1..], fd);
    case _ =>
  }

  lemma AcceptsListenerKept(s: ServerState, e: Event)
    requires Paired(s)
    ensures Process(s, e).state.listener == s.listener
  {
    hide OnEvent;
    AcceptPairs(s, e.accepts);
  }

  /** One event, seen from a session that is there afterwards. */
  lemma OneEventAlone(s: ServerState, e: Event, fd: int)
    requires ServerInv(s) && EventFeasible(s, e) && Process(s, e).status.Running?
    requires fd in Process(s, e).state.sessions
    ensures var t := Process(s, e).state;
            if fd in s.sessions then
              if e.fd == fd then
                Step(t.sessions[fd], t.interest[fd], Alive) == OnEvent(s.sessions[fd], s.interest[fd], e.ready)
              else t.sessions[fd] == s.sessions[fd] && t.interest[fd] == s.interest[fd]
            else
              && e.fd == s.listener && Connection(fd, true, true) in Taken(e.accepts)
              && t.sessions[fd] == Fresh(fd) && t.interest[fd] == READ_ONLY
  {
    hide SessionInv, OnEvent;
    if e.fd == s.listener {
      AcceptKeeps(s, e.accepts);
      if fd !in s.sessions {
        AcceptedWhere(s, e.accepts, fd);
      }
    }
  }

  /**
   * Isolation: every session there at the end of a run is in the state that its own reports alone
   * put it in, counted from the start of the run or from the moment it was accepted.  What happened
   * to other sessions, and to earlier owners of its descriptor, does not show.
   */
  lemma {:induction false} SessionsStandAlone(s: ServerState, events: seq<Event>, fd: int)
    requires ServerInv(s) && Feasible(s, events) && ProcessAll(s, events).status.Running?
    requires fd in ProcessAll(s, events).state.sessions
    ensures var t := ProcessAll(s, events).state; var end := Step(t.sessions[fd], t.interest[fd], Alive);
            AloneSince(s, events, fd, end) || exists k: nat :: AloneFrom(s.listener, events, k, fd, end)
    decreases |events|
  {
    hide ServerInv, Process, EventFeasible, OnEvent;
    InvIsPaired(s);
    var t := ProcessAll(s, events).state;
    var end := Step(t.sessions[fd], t.interest[fd], Alive);
    if events == [] {
      assert AloneSince(s, events, fd, end);
    } else {
      var e, more := events[0], events[1..];
      var mid := Process(s, e).state;
      ProcessKeeps(s, e);
      AcceptsListenerKept(s, e);
      SessionsStandAlone(mid, more, fd);
      ReportsNext(fd, events);
      if AloneSince(mid, more, fd, end) {
        OneEventAlone(s, e, fd);
        if fd !in s.sessions {
          assert events[0 + 1..] == more;
          assert AloneFrom(s.listener, events, 0, fd, end);
        }
      } else {
        var k: nat :| AloneFrom(s.listener, more, k, fd, end);
        assert events[k + 1] == more[k] && events[k + 1 + 1..] == more[k + 1..];
        assert AloneFrom(s.listener, events, k + 1, fd, end);
      }
    }
  }

  // ---------- Whole runs ----------

  /** The reports of all the batches that the loop gets to. */
  function ReportsServed(waits: seq<WaitAnswer>): seq<Event> {
    if waits == [] || waits[0].WaitFailed? then []
    else (if waits[0].Batch? then waits[0].events else []) + ReportsServed(waits[1..])
  }

  lemma {:induction false} ProcessAllAppend(s: ServerState, xs: seq<Event>, ys: seq<Event>)
    requires Paired(s)
    ensures var r := ProcessAll(s, xs);
            ProcessAll(s, xs + ys) == if r.status.Running? then ProcessAll(r.state, ys) else r
    ensures Feasible(s, xs) && (ProcessAll(s, xs).status.Running? ==> Feasible(ProcessAll(s, xs).state, ys))
            ==> Feasible(s, xs + ys)
    decreases |xs|
  {
    hide Process, EventFeasible;
    if xs == [] {
      assert xs + ys == ys;
    } else {
      assert (xs + ys)[0] == xs[0] && (xs + ys)[1..] == xs[1..] + ys;
      var r := Process(s, xs[0]);
      if r.status.Running? {
        ProcessAllAppend(r.state, xs[1..], ys);
      }
    }
  }

  /** A run of the loop is the run of all its reports in order. */
  lemma {:induction false} ServeIsOneRun(s: ServerState, waits: seq<WaitAnswer>)
    requires Paired(s) && ServeFeasible(s, waits)
    ensures Feasible(s, ReportsServed(waits))
    ensures Serve(s, waits).state == ProcessAll(s, ReportsServed(waits)).state
    ensures Serve(s, waits).status.Running? ==> ProcessAll(s, ReportsServed(waits)).status.Running?
    ensures Serve(s, waits).status.Stuck? <==> ProcessAll(s, ReportsServed(waits)).status.Stuck?
    decreases |waits|
  {
    hide Process, EventFeasible;
    if waits != [] && !waits[0].WaitFailed? {
      if waits[0].Batch? {
        var r := ProcessAll(s, waits[0].events);
        if r.status.Running? {
          ServeIsOneRun(r.state, waits[1..]);
        }
        ProcessAllAppend(s, waits[0].events, ReportsServed(waits[1..]));
      } else {
        ServeIsOneRun(s, waits[1..]);
        assert [] + ReportsServed(waits[1..]) == ReportsServed(waits[1..]);
      }
    }
  }

  /**
   * Every session of a running server is in the state of a single connection that has seen the
   * reports on its descriptor since it was accepted, so every law of single sessions holds of it.
   */
  lemma {:induction false} EverySessionHasAHistory(listener: int, waits: seq<WaitAnswer>, fd: int)
    returns (k: nat, own: seq<Readiness>)
    requires ServeFeasible(Boot(listener), waits) && Serve(Boot(listener), waits).status.Running?
    requires fd in Serve(Boot(listener), waits).state.sessions
    ensures BornAt(listener, ReportsServed(waits), k, fd) && own == ReportsOf(fd, ReportsServed(waits)[k + 1..])
    ensures var t := Serve(Boot(listener), waits).state;
            && fd in t.interest
            && History(fd, own) == Step(t.sessions[fd], t.interest[fd], Alive)
            && t.sessions[fd].journal.consumed <= Decode(t.sessions[fd].journal.received).items
            && RepliesFollow(t.sessions[fd].journal.sent, t.sessions[fd].response, t.sessions[fd].journal.verdicts)
  {
    var s := Boot(listener);
    var events := ReportsServed(waits);
    ServeIsOneRun(s, waits);
    BootHolds(listener);
    SessionsStandAlone(s, events, fd);
    var t := Serve(s, waits).state;
    var end := Step(t.sessions[fd], t.interest[fd], Alive);
    k :| AloneFrom(listener, events, k, fd, end);
    own := ReportsOf(fd, events[k + 1..]);
    ConservationOverRuns(fd, own);
    CoalescingOverRuns(fd, own);
  }

  /** A run that gets to its `i`-th report gets there by the run of the reports before it. */
  lemma {:induction false} PrefixHolds(s: ServerState, events: seq<Event>, i: nat)
    requires ServerInv(s) && Feasible(s, events) && i <= |events|
    ensures Feasible(s, events[..i])
    ensures ProcessAll(s, events[..i]).status.Running? ==> ServerInv(ProcessAll(s, events[..i]).state)
  {
    InvIsPaired(s);
    FeasiblePrefix(s, events, i);
    ProcessAllKeeps(s, events[..i]);
  }

  /**
   * No session is overwritten: at any point of any run of the loop, the accept loop leaves every
   * session as it is and adds as many as it keeps connections.
   */
  lemma {:induction false} NoSessionOverwritten(listener: int, waits: seq<WaitAnswer>, i: nat)
    requires ServeFeasible(Boot(listener), waits)
    requires i < |ReportsServed(waits)| && ReportsServed(waits)[i].fd == listener
    requires ProcessAll(Boot(listener), ReportsServed(waits)[..i]).status.Running?
    ensures var events := ReportsServed(waits);
            var t := ProcessAll(Boot(listener), events[..i]).state;
            var u := ProcessAll(Boot(listener), events[..i + 1]).state;
            && |u.sessions| == |t.sessions| + |Kept(events[i].accepts)|
            && forall fd :: fd in t.sessions ==> fd in u.sessions && u.sessions[fd] == t.sessions[fd]
  {
    var s, events := Boot(listener), ReportsServed(waits);
    BootHolds(listener);
    ServeIsOneRun(s, waits);
    PrefixHolds(s, events, i);
    ProcessedNext(s, events, i);
    var t := ProcessAll(s, events[..i]).state;
    AcceptKeeps(t, events[i].accepts);
    AcceptAddsAll(t, events[i].accepts);
  }

  /** The turn of the `i`-th report, in a run that gets there. */
  lemma {:induction false} ProcessedNext(s: ServerState, events: seq<Event>, i: nat)
    requires Paired(s) && Feasible(s, events) && i < |events| && ProcessAll(s, events[..i]).status.Running?
    ensures var t := ProcessAll(s, events[..i]).state;
            && t.listener == s.listener && EventFeasible(t, events[i])
            && ProcessAll(s, events[..i + 1]) == Process(t, events[i])
    decreases i
  {
    hide Process, EventFeasible;
    var e, more := events[0], events[1..];
    if i == 0 {
      assert events[..1][1..] == [] && events[..0] == [];
    } else {
      assert events[..i][0] == e && events[..i][1..] == more[..i - 1];
      assert events[..i + 1][0] == e && events[..i + 1][1..] == more[..i];
      AcceptsListenerKept(s, e);
      ProcessedNext(Process(s, e).state, more, i - 1);
    }
  }

  /** An interruption of `epoll_wait`, wherever it comes, makes no difference to the event loop. */
  lemma {:induction false} WaitInterruptionsVanish(s: ServerState, xs: seq<WaitAnswer>, ys: seq<WaitAnswer>)
    requires Paired(s)
    ensures Serve(s, xs + [WaitInterrupted] + ys) == Serve(s, xs + ys)
    decreases |xs|
  {
    hide ProcessAll;
    var all := xs + [WaitInterrupted] + ys;
    if xs == [] {
      assert all[0] == WaitInterrupted && all[1..] == ys == xs + ys;
    } else {
      assert all[0] == xs[0] == (xs + ys)[0];
      assert all[1..] == xs[1..] + [WaitInterrupted] + ys && (xs + ys)[1..] == xs[1..] + ys;
      if xs[0].Batch? {
        WaitInterruptionsVanish(ProcessAll(s, xs[0].events).state, xs[1..], ys);
      } else {
        WaitInterruptionsVanish(s, xs[1..], ys);
      }
    }
  }

  /** Where one batch ends and the next begins makes no difference either. */
  lemma {:induction false} BatchesJoin(s: ServerState, xs: seq<Event>, ys: seq<Event>, more: seq<WaitAnswer>)
    requires Paired(s)
    ensures Serve(s, [Batch(xs), Batch(ys)] + more) == Serve(s, [Batch(xs + ys)] + more)
  {
    hide Process, EventFeasible;
    ProcessAllAppend(s, xs, ys);
    assert ([Batch(xs), Batch(ys)] + more)[1..] == [Batch(ys)] + more;
    assert ([Batch(ys)] + more)[1..] == more && ([Batch(xs + ys)] + more)[1..] == more;
  }

  // ---------- How long a session is served ----------

  /** A session leaves the table exactly if a report of its own closes it. */
  lemma LeavesExactlyWhen(s: ServerState, e: Event, fd: int)
    requires ServerInv(s) && EventFeasible(s, e) && fd in s.sessions
    ensures fd !in Process(s, e).state.sessions
       <==> e.fd == fd && OnEvent(s.sessions[fd], s.interest[fd], e.ready).outcome.Closing?
  {
    hide OnEvent, SessionInv;
    if e.fd == s.listener {
      AcceptKeeps(s, e.accepts);
    }
  }

  /**
   * A session whose own reports, run alone, leave it alive is still served at the end of the run,
   * in the state they put it in, whatever was reported of others.
   */
  lemma {:induction false} ServedWhileAlive(s: ServerState, events: seq<Event>, fd: int)
    requires ServerInv(s) && Feasible(s, events) && ProcessAll(s, events).status.Running?
    requires fd in s.sessions && fd in s.interest
    requires RunSession(s.sessions[fd], s.interest[fd], ReportsOf(fd, events)).outcome.Alive?
    ensures var t := ProcessAll(s, events).state;
            && fd in t.sessions && fd in t.interest
            && Step(t.sessions[fd], t.interest[fd], Alive) ==
               RunSession(s.sessions[fd], s.interest[fd], ReportsOf(fd, events))
    decreases |events|
  {
    hide ServerInv, Process, EventFeasible, OnEvent;
    InvIsPaired(s);
    if events != [] {
      var e, mid := events[0], Process(s, events[0]).state;
      ReportsNext(fd, events);
      LeavesExactlyWhen(s, e, fd);
      OneEventAlone(s, e, fd);
      ProcessKeeps(s, e);
      InvIsPaired(mid);
      ServedWhileAlive(mid, events[1..], fd);
    }
  }

  // ---------- How a run ends ----------

  /** The run gets to the `i`-th report, which is for a session, and this is what becomes of it. */
  predicate ComesTo(s: ServerState, events: seq<Event>, i: nat, outcome: Outcome)
    requires Paired(s)
  {
    && i < |events| && ProcessAll(s, events[..i]).status.Running?
    && var t, e := ProcessAll(s, events[..i]).state, events[i];
       && e.fd != t.listener && e.fd in t.sessions
       && OnEvent(t.sessions[e.fd], t.interest[e.fd], e.ready).outcome == outcome
  }

  lemma EventComesTo(s: ServerState, e: Event)
    requires Paired(s)
    ensures Process(s, e).status.Stuck? <==> ComesTo(s, [e], 0, Hung)
    ensures Process(s, e).status.Failed? <==> ComesTo(s, [e], 0, Threw)
  {
    assert [e][..0] == [];
    hide OnEvent, AcceptAll;
  }

  lemma ComesLater(s: ServerState, events: seq<Event>, i: nat, outcome: Outcome)
    requires Paired(s) && events != [] && Process(s, events[0]).status.Running?
    ensures ComesTo(s, events, i + 1, outcome) <==> ComesTo(Process(s, events[0]).state, events[1..], i, outcome)
  {
    if i < |events| - 1 {
      assert events[..i + 1][0] == events[0] && events[..i + 1][1..] == events[1..][..i];
    }
    hide Process, OnEvent;
  }

  lemma ComesFirst(s: ServerState, events: seq<Event>, outcome: Outcome)
    requires Paired(s) && events != []
    ensures ComesTo(s, events, 0, outcome) <==> ComesTo(s, [events[0]], 0, outcome)
    ensures !Process(s, events[0]).status.Running? ==> forall i: nat :: ComesTo(s, events, i, outcome) ==> i == 0
  {
    assert events[..0] == [] && [events[0]][..0] == [];
    forall i: nat | i > 0 && ComesTo(s, events, i, outcome) ensures Process(s, events[0]).status.Running? {
      assert events[..i][0] == events[0];
    }
    hide Process, OnEvent;
  }

  lemma NoneComes(s: ServerState, outcome: Outcome)
    requires Paired(s)
    ensures forall i: nat :: !ComesTo(s, [], i, outcome)
  {
  }

  /** A run ends hung, or by an exception, if and only if it gets to a report that comes to this. */
  lemma {:induction false} RunEndsExactlyWhen(s: ServerState, events: seq<Event>, outcome: Outcome)
    requires Paired(s) && (outcome.Hung? || outcome.Threw?)
    ensures ProcessAll(s, events).status == (if outcome.Hung? then Stuck else Failed) <==>
            exists i: nat :: ComesTo(s, events, i, outcome)
    decreases |events|
  {
    hide Process, ComesTo;
    if events == [] {
      NoneComes(s, outcome);
    } else {
      EventComesTo(s, events[0]);
      ComesFirst(s, events, outcome);
      var r := Process(s, events[0]);
      if r.status.Running? {
        RunEndsExactlyWhen(r.state, events[1..], outcome);
        if i: nat :| ComesTo(r.state, events[1..], i, outcome) {
          ComesLater(s, events, i, outcome);
        }
        if i: nat :| ComesTo(s, events, i, outcome) {
          assert i > 0;
          ComesLater(s, events, i - 1, outcome);
        }
      }
    }
  }

  /** The session that the `i`-th report is for, when the run gets there. */
  predicate Reaches(s: ServerState, events: seq<Event>, i: nat, session: State, mask: Mask)
    requires Paired(s)
  {
    && i < |events| && ProcessAll(s, events[..i]).status.Running?
    && var t, fd := ProcessAll(s, events[..i]).state, events[i].fd;
       fd != t.listener && fd in t.sessions && t.sessions[fd] == session && t.interest[fd] == mask
  }

  lemma {:induction false} ReachesComesTo(s: ServerState, events: seq<Event>, i: nat, outcome: Outcome)
    requires ServerInv(s) && Feasible(s, events)
    ensures Paired(s)
    ensures ComesTo(s, events, i, outcome) <==>
            exists session, mask :: Reaches(s, events, i, session, mask)
                                    && OnEvent(session, mask, events[i].ready).outcome == outcome
    ensures forall session, mask :: Reaches(s, events, i, session, mask) ==> StateInv(session)
  {
    InvIsPaired(s);
    if i < |events| && ProcessAll(s, events[..i]).status.Running? {
      PrefixHolds(s, events, i);
      var t, fd := ProcessAll(s, events[..i]).state, events[i].fd;
      if fd != t.listener && fd in t.sessions {
        assert SessionInv(fd, t.sessions[fd], t.interest[fd]);
        assert Reaches(s, events, i, t.sessions[fd], t.interest[fd]);
      }
    }
    hide OnEvent, StateInv, ProcessAll, Feasible;
  }

  /** A report hangs a session that then gets to read and finds a zero-length header when it parses. */
  predicate HangsOn(session: State, mask: Mask, r: Readiness) {
    && r.readable && !r.error && Before(session, mask, r).outcome.Alive?
    && Drain(r.recvs).alive
    && Scan(Pending(ParserOf(session)) + Drain(r.recvs).data).halt.Spinning?
  }

  /**
   * The server hangs if and only if some report that the loop gets to lets a session read and its
   * parser reach a zero-length header.
   */
  lemma {:induction false} ServerHangsExactlyWhen(listener: int, waits: seq<WaitAnswer>)
    requires ServeFeasible(Boot(listener), waits)
    ensures var events := ReportsServed(waits);
            Serve(Boot(listener), waits).status.Stuck? <==>
            exists i: nat, session, mask ::
              Reaches(Boot(listener), events, i, session, mask) && HangsOn(session, mask, events[i].ready)
  {
    var s, events := Boot(listener), ReportsServed(waits);
    BootHolds(listener);
    ServeIsOneRun(s, waits);
    RunEndsExactlyWhen(s, events, Hung);
    forall i: nat
      ensures ComesTo(s, events, i, Hung) <==>
              exists session, mask :: Reaches(s, events, i, session, mask) && HangsOn(session, mask, events[i].ready)
    {
      ReachesComesTo(s, events, i, Hung);
      forall session, mask | Reaches(s, events, i, session, mask)
        ensures OnEvent(session, mask, events[i].ready).outcome.Hung? <==> HangsOn(session, mask, events[i].ready)
      {
        HangsExactlyWhen(session, mask, events[i].ready);
      }
      hide OnEvent, HangsOn, StateInv, ComesTo, Reaches;
    }
    hide Serve, ComesTo, Reaches, HangsOn, ProcessAll;
  }

  /** `epoll_wait` fails for another reason than an interruption, while the loop is at work. */
  predicate WaitFailsAt(s: ServerState, waits: seq<WaitAnswer>, n: nat)
    requires Paired(s)
  {
    n < |waits| && waits[n].WaitFailed? && Serve(s, waits[..n]).status.Running?
  }

  lemma WaitFailsLater(s: ServerState, waits: seq<WaitAnswer>, n: nat)
    requires Paired(s) && waits != [] && !waits[0].WaitFailed?
    ensures WaitFailsAt(s, waits, n + 1) <==>
            var r := Serve(s, waits[..1]);
            r.status.Running? && WaitFailsAt(r.state, waits[1..], n)
    ensures !WaitFailsAt(s, waits, 0)
    ensures Serve(s, waits[..1]) ==
            if waits[0].Batch? then ProcessAll(s, waits[0].events) else Ran(s, Running)
  {
    assert waits[..1][0] == waits[0] && waits[..1][1..] == [];
    if n < |waits| - 1 {
      assert waits[..n + 1][0] == waits[0] && waits[..n + 1][1..] == waits[1..][..n];
    }
    hide ProcessAll;
  }

  lemma {:induction false} LoopFailsExactlyWhen(s: ServerState, waits: seq<WaitAnswer>)
    requires Paired(s)
    ensures Serve(s, waits).status.Failed? <==>
            || ProcessAll(s, ReportsServed(waits)).status.Failed?
            || exists n: nat :: WaitFailsAt(s, waits, n)
    decreases |waits|
  {
    hide ProcessAll, WaitFailsAt;
    if waits == [] {
      NoWaitFails(s);
    } else if waits[0].WaitFailed? {
      FirstWaitFails(s, waits);
    } else {
      WaitFailsLater(s, waits, 0);
      var r := Serve(s, waits[..1]);
      var events := if waits[0].Batch? then waits[0].events else [];
      ProcessAllAppend(s, events, ReportsServed(waits[1..]));
      NothingProcessed(s);
      if r.status.Running? {
        LoopFailsExactlyWhen(r.state, waits[1..]);
      }
      if n: nat :| WaitFailsAt(s, waits, n) {
        WaitFailsLater(s, waits, if n > 0 then n - 1 else 0);
      }
      if n: nat :| r.status.Running? && WaitFailsAt(r.state, waits[1..], n) {
        WaitFailsLater(s, waits, n);
      }
    }
  }

  lemma NothingProcessed(s: ServerState)
    requires Paired(s)
    ensures ProcessAll(s, []) == Ran(s, Running)
  {
  }

  lemma NoWaitFails(s: ServerState)
    requires Paired(s)
    ensures forall n: nat :: !WaitFailsAt(s, [], n)
    ensures ProcessAll(s, []) == Ran(s, Running)
  {
  }

  lemma FirstWaitFails(s: ServerState, waits: seq<WaitAnswer>)
    requires Paired(s) && waits != [] && waits[0].WaitFailed?
    ensures WaitFailsAt(s, waits, 0) && ProcessAll(s, ReportsServed(waits)) == Ran(s, Running)
  {
    assert waits[..0] == [];
  }

  /**
   * The loop is left by an exception if and only if `epoll_wait` fails while it is at work, or a
   * report that it gets to makes a session's event throw.
   */
  lemma {:induction false} ServerFailsExactlyWhen(listener: int, waits: seq<WaitAnswer>)
    requires ServeFeasible(Boot(listener), waits)
    ensures var events := ReportsServed(waits);
            Serve(Boot(listener), waits).status.Failed? <==>
            || (exists n: nat :: WaitFailsAt(Boot(listener), waits, n))
            || exists i: nat, session, mask ::
                 Reaches(Boot(listener), events, i, session, mask) && Throws(session, events[i].ready)
  {
    var s, events := Boot(listener), ReportsServed(waits);
    BootHolds(listener);
    ServeIsOneRun(s, waits);
    LoopFailsExactlyWhen(s, waits);
    RunEndsExactlyWhen(s, events, Threw);
    forall i: nat
      ensures ComesTo(s, events, i, Threw) <==>
              exists session, mask :: Reaches(s, events, i, session, mask) && Throws(session, events[i].ready)
    {
      ReachesComesTo(s, events, i, Threw);
      forall session, mask | Reaches(s, events, i, session, mask)
        ensures OnEvent(session, mask, events[i].ready).outcome.Threw? <==> Throws(session, events[i].ready)
      {
        ThrowsExactlyWhen(session, mask, events[i].ready);
      }
      hide OnEvent, Throws, StateInv, ComesTo, Reaches;
    }
    hide Serve, ComesTo, Reaches, Throws, ProcessAll, WaitFailsAt;
  }
}
