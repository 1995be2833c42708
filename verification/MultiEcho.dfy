// The server of src/socket/multiple_client/MultiTCPServer.cpp: one thread per accepted client,
// any interleaving of their calls with the accept loop and with stop(), then a join of them all.
// The kernel reuses descriptors as soon as they are closed.
module MultiEcho {
  import opened Common
  import opened EchoSession

  // Where a client thread is: in its session, before the handler's own close, before the close in
  // the catch block, past either of them, or at its end.
  datatype Point = Serving | HandlerClose | CatchClose | Closed | Exited

  // A client thread: its descriptor, its session, the answers it got, and its closes.
  datatype Client = Client(fd: int, session: Session, history: seq<Answer>, closes: nat, at: Point)

  // After a failed accept() the loop asks isRunning() once more.
  datatype Acceptor = Checking | Accepting | Failed | Joining(next: nat) | Done

  datatype Server = Server(running: bool, acceptor: Acceptor, clients: seq<Client>, open: set<int>)

  const INIT := Server(true, Checking, [], {})

  datatype Event =
    | Check | Accepted(fd: int) | AcceptFailed | Stop
    | Answered(client: nat, answer: Answer) | Close(client: nat) | Exit(client: nat) | Join

  // A session that ended normally falls through to the handler's close; an exception goes to the
  // catch block.
  function PointOf(s: Session): Point {
    match s.phase
    case Ended(normally) => if normally then HandlerClose else CatchClose
    case _ => Serving
  }

  predicate Enabled(s: Server, e: Event) {
    match e
    case Check => s.acceptor == Checking || s.acceptor == Failed
    case Accepted(fd) => s.acceptor == Accepting && fd >= 0 && fd !in s.open
    case AcceptFailed => s.acceptor == Accepting
    case Stop => true
    case Answered(i, a) => i < |s.clients| && s.clients[i].at == Serving
    case Close(i) => i < |s.clients| && s.clients[i].at in {HandlerClose, CatchClose}
    case Exit(i) => i < |s.clients| && s.clients[i].at == Closed
    case Join =>
      s.acceptor.Joining?
      && (s.acceptor.next < |s.clients| ==> s.clients[s.acceptor.next].at == Exited)
  }

  function Apply(s: Server, port: nat, e: Event): Server
    requires Enabled(s, e)
  {
    match e
    case Check =>
      s.(acceptor := if !s.running then Joining(0)
                     else if s.acceptor == Checking then Accepting else Checking)
    case Accepted(fd) =>
      s.(acceptor := Checking, open := s.open + {fd},
         clients := s.clients + [Client(fd, Start(port), [], 0, Serving)])
    case AcceptFailed => s.(acceptor := Failed)
    case Stop => s.(running := false)
    case Answered(i, a) => s.(clients := s.clients[i := Heard(s.clients[i], a)])
    case Close(i) =>
      var c := s.clients[i];
      s.(clients := s.clients[i := c.(closes := c.closes + 1, at := Closed)],
         open := s.open - {c.fd})
    case Exit(i) => s.(clients := s.clients[i := s.clients[i].(at := Exited)])
    case Join =>
      if s.acceptor.next < |s.clients| then s.(acceptor := Joining(s.acceptor.next + 1))
      else s.(acceptor := Done)
  }

  function Heard(c: Client, a: Answer): Client {
    var session := Step(c.session, a);
    c.(session := session, history := c.history + [a], at := PointOf(session))
  }

  ghost predicate Legal(port: nat, run: seq<Event>)
    decreases |run|, 0
  {
    run != [] ==>
      Legal(port, run[..|run| - 1]) && Enabled(After(port, run[..|run| - 1]), run[|run| - 1])
  }

  ghost function After(port: nat, run: seq<Event>): Server
    requires Legal(port, run)
    decreases |run|, 1
  {
    if run == [] then INIT else Apply(After(port, run[..|run| - 1]), port, run[|run| - 1])
  }

  // A thread sees only its own answers, and its closes fit where it is.
  predicate ClientInv(port: nat, c: Client) {
    && c.session == Run(Start(port), c.history)
    && c.closes == (if c.at in {Closed, Exited} then 1 else 0)
    && (if c.at in {Closed, Exited} then c.session.phase.Ended? else c.at == PointOf(c.session))
  }

  // The open descriptors are those of the threads that have not closed theirs, which all differ.
  ghost predicate OpenInv(s: Server) {
    && (forall i :: 0 <= i < |s.clients| && s.clients[i].closes == 0 ==> s.clients[i].fd in s.open)
    && (forall fd :: fd in s.open ==>
          exists i :: 0 <= i < |s.clients| && s.clients[i].closes == 0 && s.clients[i].fd == fd)
    && (forall i, j :: 0 <= i < j < |s.clients| && s.clients[i].closes == s.clients[j].closes == 0
          ==> s.clients[i].fd != s.clients[j].fd)
  }

  predicate Joined(s: Server) {
    match s.acceptor
    case Joining(n) => n <= |s.clients| && forall i :: 0 <= i < n ==> s.clients[i].at == Exited
    case Done => forall i :: 0 <= i < |s.clients| ==> s.clients[i].at == Exited
    case _ => true
  }

  ghost predicate Inv(port: nat, s: Server) {
    && (forall i :: 0 <= i < |s.clients| ==> ClientInv(port, s.clients[i]))
    && OpenInv(s)
    && Joined(s)
  }

  lemma OpenAfterAccept(s: Server, port: nat, fd: int)
    requires OpenInv(s) && Enabled(s, Accepted(fd))
    ensures OpenInv(Apply(s, port, Accepted(fd)))
  {
    var s' := Apply(s, port, Accepted(fd));
    var n := |s.clients|;
    assert forall i :: 0 <= i < n ==> s'.clients[i] == s.clients[i];
    forall d | d in s'.open
      ensures exists i :: 0 <= i <= n && s'.clients[i].closes == 0 && s'.clients[i].fd == d
    {
      if d == fd {
        assert s'.clients[n].closes == 0;
      } else {
        var i :| 0 <= i < n && s.clients[i].closes == 0 && s.clients[i].fd == d;
        assert s'.clients[i].fd == d;
      }
    }
  }

  // A thread that has not closed yet takes only its own descriptor away.
  lemma OpenAfterClose(s: Server, port: nat, i: nat)
    requires OpenInv(s) && Enabled(s, Close(i)) && s.clients[i].closes == 0
    ensures OpenInv(Apply(s, port, Close(i)))
  {
    var s' := Apply(s, port, Close(i));
    var fd := s.clients[i].fd;
    forall d | d in s'.open
      ensures exists j :: 0 <= j < |s'.clients| && s'.clients[j].closes == 0 && s'.clients[j].fd == d
    {
      var j :| 0 <= j < |s.clients| && s.clients[j].closes == 0 && s.clients[j].fd == d;
      assert j != i && s'.clients[j] == s.clients[j];
    }
    forall j | 0 <= j < |s'.clients| && s'.clients[j].closes == 0 ensures s'.clients[j].fd in s'.open {
      assert j != i && s.clients[j].fd != fd;
    }
  }

  // A step that changes neither a descriptor nor a count of closes.
  lemma OpenAfterOther(s: Server, s': Server)
    requires OpenInv(s) && s'.open == s.open && |s'.clients| == |s.clients|
    requires forall j :: 0 <= j < |s.clients| ==>
      s'.clients[j].closes == s.clients[j].closes && s'.clients[j].fd == s.clients[j].fd
    ensures OpenInv(s')
  {
    forall d | d in s'.open
      ensures exists j :: 0 <= j < |s'.clients| && s'.clients[j].closes == 0 && s'.clients[j].fd == d
    {
      var j :| 0 <= j < |s.clients| && s.clients[j].closes == 0 && s.clients[j].fd == d;
      assert s'.clients[j].fd == d && s'.clients[j].closes == 0;
    }
  }

  lemma OpenAfter(port: nat, s: Server, e: Event)
    requires Inv(port, s) && Enabled(s, e)
    ensures OpenInv(Apply(s, port, e))
  {
    match e {
      case Accepted(fd) => OpenAfterAccept(s, port, fd);
      case Close(i) =>
        assert ClientInv(port, s.clients[i]);
        OpenAfterClose(s, port, i);
      case _ => OpenAfterOther(s, Apply(s, port, e));
    }
  }

  lemma ClientsAfter(port: nat, s: Server, e: Event)
    requires Enabled(s, e) && forall i :: 0 <= i < |s.clients| ==> ClientInv(port, s.clients[i])
    ensures var s' := Apply(s, port, e);
      forall i :: 0 <= i < |s'.clients| ==> ClientInv(port, s'.clients[i])
  {
    if e.Answered? {
      HeardFits(port, s.clients[e.client], e.answer);
    }
  }

  lemma HeardFits(port: nat, c: Client, a: Answer)
    requires ClientInv(port, c) && c.at == Serving
    ensures ClientInv(port, Heard(c, a))
  {
    RunExtends(Start(port), c.history, a);
  }

  lemma JoinedAfter(port: nat, s: Server, e: Event)
    requires Enabled(s, e) && Joined(s)
    ensures Joined(Apply(s, port, e))
  {
  }

  lemma InvStep(port: nat, s: Server, e: Event)
    requires Inv(port, s) && Enabled(s, e)
    ensures Inv(port, Apply(s, port, e))
  {
    ClientsAfter(port, s, e);
    JoinedAfter(port, s, e);
    OpenAfter(port, s, e);
  }

  lemma {:induction false} InvRun(port: nat, run: seq<Event>)
    requires Legal(port, run)
    ensures Inv(port, After(port, run))
  {
    if run != [] {
      InvRun(port, run[..|run| - 1]);
      InvStep(port, After(port, run[..|run| - 1]), run[|run| - 1]);
    }
  }

  // In every interleaving each client is echoed faithfully, from its own answers alone.
  lemma InterleavedSessionsAreFaithful(port: nat, run: seq<Event>, i: nat)
    requires Legal(port, run) && i < |After(port, run).clients|
    ensures var c := After(port, run).clients[i];
      && c.session == Run(Start(port), c.history)
      && c.session.sent <= Greeting(port) + Delivered(port, c.history)
      && (c.session.phase == Ended(true) ==>
            c.session.sent == Greeting(port) + Delivered(port, c.history))
  {
    InvRun(port, run);
    var c := After(port, run).clients[i];
    assert ClientInv(port, c);
    EchoIsFaithful(port, c.history);
  }

  // In every interleaving a thread closes its descriptor once, by the handler exactly when its
  // session ended normally and by the catch block exactly after an error, and has done so when it
  // exits; once the accept loop has returned all have, and nothing is open.
  lemma ClosedExactlyOnce(port: nat, run: seq<Event>)
    requires Legal(port, run)
    ensures var s := After(port, run);
      && (forall i :: 0 <= i < |s.clients| ==> ClosesOnce(s.clients[i]))
      && (forall i, j :: 0 <= i < j < |s.clients| && s.clients[i].fd == s.clients[j].fd ==>
            s.clients[i].closes == 1 || s.clients[j].closes == 1)
      && (s.acceptor == Done ==>
            s.open == {} && forall i :: 0 <= i < |s.clients| ==> s.clients[i].closes == 1)
  {
    InvRun(port, run);
    var s := After(port, run);
    forall i | 0 <= i < |s.clients|
      ensures ClosesOnce(s.clients[i]) && (s.acceptor == Done ==> s.clients[i].closes == 1)
    {
      FitsPoint(port, s.clients[i]);
    }
    if s.acceptor == Done {
      NoneOpen(s);
    }
  }

  predicate ClosesOnce(c: Client) {
    && c.closes <= 1
    && (c.at == Exited ==> c.closes == 1)
    && (c.at == HandlerClose <==> c.closes == 0 && c.session.phase == Ended(true))
    && (c.at == CatchClose <==> c.closes == 0 && c.session.phase == Ended(false))
  }

  lemma FitsPoint(port: nat, c: Client)
    requires ClientInv(port, c)
    ensures ClosesOnce(c)
  {
  }

  lemma NoneOpen(s: Server)
    requires OpenInv(s) && forall i :: 0 <= i < |s.clients| ==> s.clients[i].closes == 1
    ensures s.open == {}
  {
    forall fd ensures fd !in s.open {
    }
  }

  // Every close, at either place, hits a descriptor that is open and that no other thread holds.
  lemma ClosesItsOwn(port: nat, run: seq<Event>, i: nat)
    requires Legal(port, run) && Enabled(After(port, run), Close(i))
    ensures var s := After(port, run);
      && s.clients[i].closes == 0 && s.clients[i].fd in s.open
      && forall j :: 0 <= j < |s.clients| && j != i && s.clients[j].fd == s.clients[i].fd ==>
           s.clients[j].closes == 1
  {
    InvRun(port, run);
    var s := After(port, run);
    assert forall j :: 0 <= j < |s.clients| ==> ClientInv(port, s.clients[j]);
  }

  // Two threads that have not exited can have the same descriptor, exactly because one of them has
  // closed it: the kernel hands it out again between the close and the thread's end.
  lemma ReusedBeforeExit(port: nat, fd: nat) returns (run: seq<Event>)
    ensures Legal(port, run)
    ensures var s := After(port, run);
      && |s.clients| == 2 && s.clients[0].fd == s.clients[1].fd == fd
      && s.clients[0].at == Closed && s.clients[1].at == Serving
  {
    var refused := Answer(0, "");
    run := [];
    run := Extend(port, run, Check);
    run := Extend(port, run, Accepted(fd));
    run := Extend(port, run, Answered(0, refused));
    run := Extend(port, run, Close(0));
    run := Extend(port, run, Check);
    run := Extend(port, run, Accepted(fd));
  }

  lemma Extend(port: nat, run: seq<Event>, e: Event) returns (run': seq<Event>)
    requires Legal(port, run) && Enabled(After(port, run), e)
    ensures Legal(port, run') && After(port, run') == Apply(After(port, run), port, e)
  {
    run' := run + [e];
    assert run'[..|run|] == run;
  }

  // How many of the events are accepted clients.
  function Accepts(run: seq<Event>): nat {
    if run == [] then 0
    else Accepts(run[..|run| - 1]) + if run[|run| - 1].Accepted? then 1 else 0
  }

  // A server runs exactly until stop(), and only then its accept loop gets to the joins.
  lemma {:induction false} RunsUntilStop(port: nat, run: seq<Event>)
    requires Legal(port, run)
    ensures After(port, run).running <==> Stop !in run
    ensures After(port, run).acceptor.Joining? || After(port, run).acceptor == Done ==> Stop in run
  {
    if run != [] {
      var t, e := run[..|run| - 1], run[|run| - 1];
      RunsUntilStop(port, t);
      assert run == t + [e];
    }
  }

  // After stop() at most one more client is accepted: the one the loop is already waiting for.
  lemma StopIsFollowed(port: nat, run: seq<Event>, n: nat)
    requires Legal(port, run) && n <= |run| && Stop in run[..n]
    ensures Legal(port, run[..n])
    ensures Accepts(run) - Accepts(run[..n]) <= if After(port, run[..n]).acceptor == Accepting then 1 else 0
    ensures |After(port, run).clients| - |After(port, run[..n]).clients| == Accepts(run) - Accepts(run[..n])
  {
    LegalPrefix(port, run, n);
    RunsUntilStop(port, run[..n]);
    FollowedByOne(port, run, n);
  }

  lemma {:induction false} LegalPrefix(port: nat, run: seq<Event>, n: nat)
    requires Legal(port, run) && n <= |run|
    ensures Legal(port, run[..n])
    decreases |run|
  {
    if n < |run| {
      LegalPrefix(port, run[..|run| - 1], n);
      assert run[..|run| - 1][..n] == run[..n];
    } else {
      assert run[..n] == run;
    }
  }

  lemma {:induction false} FollowedByOne(port: nat, run: seq<Event>, n: nat)
    requires Legal(port, run) && n <= |run| && Legal(port, run[..n]) && !After(port, run[..n]).running
    ensures var s, s' := After(port, run[..n]), After(port, run);
      && !s'.running
      && Accepts(run) - Accepts(run[..n]) <= (if s.acceptor == Accepting then 1 else 0)
      && |s'.clients| - |s.clients| == Accepts(run) - Accepts(run[..n])
      && (s'.acceptor == Accepting ==> s.acceptor == Accepting && Accepts(run) == Accepts(run[..n]))
    decreases |run|
  {
    if n == |run| {
      assert run[..n] == run;
    } else {
      var t := run[..|run| - 1];
      assert t[..n] == run[..n];
      FollowedByOne(port, t, n);
      StoppedAccept(After(port, t), port, run[|run| - 1]);
    }
  }

  lemma StoppedAccept(s: Server, port: nat, e: Event)
    requires !s.running && Enabled(s, e)
    ensures var s' := Apply(s, port, e);
      && !s'.running
      && |s'.clients| == |s.clients| + (if e.Accepted? then 1 else 0)
      && (e.Accepted? ==> s.acceptor == Accepting && s'.acceptor != Accepting)
      && (s'.acceptor == Accepting ==> s.acceptor == Accepting)
  {
  }

  predicate IsLoopStep(e: Event) { e.Check? || e.Accepted? || e.AcceptFailed? || e.Join? }

  function LoopSteps(run: seq<Event>): nat {
    if run == [] then 0
    else LoopSteps(run[..|run| - 1]) + if IsLoopStep(run[|run| - 1]) then 1 else 0
  }

  // The steps that the accept loop of a stopped server still makes at most.
  function StepsLeft(s: Server): nat {
    match s.acceptor
    case Accepting => |s.clients| + 5
    case Checking => |s.clients| + 3
    case Failed => |s.clients| + 3
    case Joining(n) => if n <= |s.clients| then |s.clients| - n + 1 else 1
    case Done => 0
  }

  lemma StoppedStep(s: Server, port: nat, e: Event)
    requires !s.running && Enabled(s, e)
    ensures !Apply(s, port, e).running
    ensures if IsLoopStep(e) then StepsLeft(Apply(s, port, e)) < StepsLeft(s)
            else StepsLeft(Apply(s, port, e)) == StepsLeft(s)
  {
  }

  // So after stop() the accept loop ends within a step for each thread and five more.
  lemma StoppedLoopEnds(port: nat, run: seq<Event>, n: nat)
    requires Legal(port, run) && n <= |run| && Stop in run[..n]
    ensures Legal(port, run[..n])
    ensures LoopSteps(run) - LoopSteps(run[..n]) <= |After(port, run[..n]).clients| + 5
  {
    LegalPrefix(port, run, n);
    RunsUntilStop(port, run[..n]);
    StepsAreSpent(port, run, n);
  }

  lemma {:induction false} StepsAreSpent(port: nat, run: seq<Event>, n: nat)
    requires Legal(port, run) && n <= |run| && Legal(port, run[..n]) && !After(port, run[..n]).running
    ensures var s := After(port, run[..n]);
      LoopSteps(run) + StepsLeft(After(port, run)) <= LoopSteps(run[..n]) + StepsLeft(s)
    ensures !After(port, run).running
    decreases |run|
  {
    if n == |run| {
      assert run[..n] == run;
    } else {
      var t := run[..|run| - 1];
      assert t[..n] == run[..n];
      StepsAreSpent(port, t, n);
      StoppedStep(After(port, t), port, run[|run| - 1]);
    }
  }

  // The server can always go on until its accept loop has returned, and then nothing is left to
  // do: the joins have waited for every thread.
  lemma StuckOnlyWhenDone(port: nat, run: seq<Event>)
    requires Legal(port, run)
    ensures var s := After(port, run);
      (forall e :: Enabled(s, e) ==> e == Stop) <==> s.acceptor == Done
  {
    InvRun(port, run);
    var s := After(port, run);
    if s.acceptor != Done {
      var e := NextEvent(s);
    }
  }

  lemma NextEvent(s: Server) returns (e: Event)
    requires Joined(s) && s.acceptor != Done
    ensures Enabled(s, e) && e != Stop
  {
    match s.acceptor {
      case Checking | Failed => e := Check;
      case Accepting => e := AcceptFailed;
      case Joining(n) =>
        if n == |s.clients| {
          e := Join;
        } else {
          match s.clients[n].at {
            case Serving => e := Answered(n, Answer(0, ""));
            case HandlerClose | CatchClose => e := Close(n);
            case Closed => e := Exit(n);
            case Exited => e := Join;
          }
        }
    }
  }

  // ----- the code -----

  // A client thread: the handler, and a close where it throws.
  method RunClient(c: Connection, port: nat) returns (outcome: Outcome)
    requires c.closes == 0 && c.history == [] && c.wire == ""
    modifies c
    ensures c.Echoed(port)
    ensures outcome != Blocked ==> c.Now(port).phase.Ended? && c.closes == 1
    ensures outcome == Blocked ==> c.answers == [] && !c.Now(port).phase.Ended? && c.closes == 0
  {
    outcome := HandleClient(c, port);
    if outcome == Threw {
      c.Close();
    }
  }

  // One turn of the accept loop: the connection, or null for a failed accept, and whether the
  // server is running when the loop asks next.
  datatype Turn = Turn(client: Connection?, running: bool)

  // The server was found running after each turn before i.
  predicate ReachesTurn(turns: seq<Turn>, i: nat)
    requires i <= |turns|
  {
    forall j :: 0 <= j < i ==> turns[j].running
  }

  // Thread k is that of the client of turn at[k]: the turns are in order, they are reached, and up to
  // turn n none that is reached and has a client is left out.
  ghost predicate InTurns(turns: seq<Turn>, n: nat, threads: seq<Connection>, at: seq<nat>) {
    && n <= |turns| && |at| == |threads|
    && (forall k :: 0 <= k < |at| ==>
          at[k] < n && turns[at[k]].client == threads[k] && ReachesTurn(turns, at[k]))
    && (forall k, l :: 0 <= k < l < |at| ==> at[k] < at[l])
    && (forall i :: 0 <= i < n && turns[i].client != null && ReachesTurn(turns, i) ==> i in at)
  }

  lemma NextTurn(turns: seq<Turn>, n: nat, threads: seq<Connection>, at: seq<nat>)
    requires InTurns(turns, n, threads, at) && n < |turns| && ReachesTurn(turns, n)
    ensures turns[n].client == null ==> InTurns(turns, n + 1, threads, at)
    ensures turns[n].client != null ==> InTurns(turns, n + 1, threads + [turns[n].client], at + [n])
  {
    assert n in at + [n];
    assert forall i :: i in at ==> i in at + [n];
  }

  lemma StoppedTurns(turns: seq<Turn>, n: nat, threads: seq<Connection>, at: seq<nat>)
    requires InTurns(turns, n, threads, at) && (n == |turns| || !ReachesTurn(turns, n))
    ensures InTurns(turns, |turns|, threads, at)
  {
    forall i | n <= i < |turns| && n < |turns| ensures !ReachesTurn(turns, i) {
      var j :| 0 <= j < n && !turns[j].running;
    }
  }

  // Unused so far, and all different.
  ghost predicate FreshClients(clients: seq<Connection>)
    reads clients
  {
    && NoDup(clients)
    && forall c :: c in clients ==> c.closes == 0 && c.history == [] && c.wire == ""
  }

  function Clients(turns: seq<Turn>): set<Connection> {
    set i | 0 <= i < |turns| && turns[i].client != null :: turns[i].client
  }

  ghost predicate FreshTurns(turns: seq<Turn>)
    reads Clients(turns)
  {
    && (forall i, j :: 0 <= i < j < |turns| && turns[i].client != null ==>
          turns[i].client != turns[j].client)
    && forall c :: c in Clients(turns) ==> c.closes == 0 && c.history == [] && c.wire == ""
  }

  // So a client gets a thread exactly when its turn is reached, and threads are of different clients.
  lemma WhoIsServed(turns: seq<Turn>, threads: seq<Connection>, at: seq<nat>, c: Connection)
    requires InTurns(turns, |turns|, threads, at)
    ensures c in threads
       <==> exists i :: 0 <= i < |turns| && turns[i].client == c && ReachesTurn(turns, i)
  {
    if i :| 0 <= i < |turns| && turns[i].client == c && ReachesTurn(turns, i) {
      var k :| 0 <= k < |at| && at[k] == i;
      assert threads[k] == c;
    }
    if c in threads {
      var k :| 0 <= k < |threads| && threads[k] == c;
      assert turns[at[k]].client == c && ReachesTurn(turns, at[k]);
    }
  }

  lemma ThreadsFresh(turns: seq<Turn>, threads: seq<Connection>, at: seq<nat>)
    requires FreshTurns(turns) && InTurns(turns, |turns|, threads, at)
    ensures FreshClients(threads) && forall c :: c in threads ==> c in Clients(turns)
  {
    forall k | 0 <= k < |threads| ensures threads[k] in Clients(turns) {
      assert turns[at[k]].client == threads[k];
    }
    forall k, l | 0 <= k < l < |threads| ensures threads[k] != threads[l] {
      assert turns[at[k]].client != turns[at[l]].client;
    }
  }

  // The accept loop of a server that is running, and its joins. A thread works on its own
  // connection only, so what it leaves behind is the same wherever it runs before its join.
  method AcceptLoop(turns: seq<Turn>, port: nat)
      returns (clientThreads: seq<Connection>, joined: nat, ghost at: seq<nat>)
    requires FreshTurns(turns)
    modifies Clients(turns)
    ensures InTurns(turns, |turns|, clientThreads, at) && joined <= |clientThreads|
    ensures forall i :: 0 <= i < joined ==>
      clientThreads[i].closes == 1 && clientThreads[i].Now(port).phase.Ended?
      && clientThreads[i].Echoed(port)
    ensures joined < |clientThreads| ==>
      clientThreads[joined].answers == [] && !clientThreads[joined].Now(port).phase.Ended?
  {
    clientThreads, at := StartAll(turns);
    ThreadsFresh(turns, clientThreads, at);
    joined := JoinAll(clientThreads, port);
  }

  // The loop that accepts, until it finds the server stopped: exactly the clients whose turns are
  // reached get a thread, in the order of their turns.
  method StartAll(turns: seq<Turn>) returns (clientThreads: seq<Connection>, ghost at: seq<nat>)
    ensures InTurns(turns, |turns|, clientThreads, at)
    ensures forall c :: c in clientThreads <==>
      exists i :: 0 <= i < |turns| && turns[i].client == c && ReachesTurn(turns, i)
  {
    clientThreads, at := [], [];
    var n, running := 0, true;
    while running && n < |turns|
      invariant n <= |turns|
      invariant running <==> ReachesTurn(turns, n)
      invariant InTurns(turns, n, clientThreads, at)
    {
      var client := turns[n].client;
      NextTurn(turns, n, clientThreads, at);
      if client != null {
        clientThreads, at := clientThreads + [client], at + [n];
      }
      running := turns[n].running;
      n := n + 1;
    }
    StoppedTurns(turns, n, clientThreads, at);
    forall c: Connection
      ensures c in clientThreads <==>
        exists i :: 0 <= i < |turns| && turns[i].client == c && ReachesTurn(turns, i)
    {
      WhoIsServed(turns, clientThreads, at, c);
    }
  }

  // The join loop, which waits for each thread in turn.
  method JoinAll(clientThreads: seq<Connection>, port: nat) returns (joined: nat)
    requires FreshClients(clientThreads)
    modifies clientThreads
    ensures joined <= |clientThreads|
    ensures forall i :: 0 <= i < joined ==>
      clientThreads[i].closes == 1 && clientThreads[i].Now(port).phase.Ended?
      && clientThreads[i].Echoed(port)
    ensures joined < |clientThreads| ==>
      clientThreads[joined].answers == [] && !clientThreads[joined].Now(port).phase.Ended?
  {
    joined := 0;
    while joined < |clientThreads|
      invariant joined <= |clientThreads|
      invariant forall i :: 0 <= i < joined ==>
        clientThreads[i].closes == 1 && clientThreads[i].Now(port).phase.Ended?
        && clientThreads[i].Echoed(port)
      invariant forall i :: joined <= i < |clientThreads| ==>
        clientThreads[i].closes == 0 && clientThreads[i].history == [] && clientThreads[i].wire == ""
    {
      var outcome := RunClient(clientThreads[joined], port);
      if outcome == Blocked {
        return;
      }
      joined := joined + 1;
    }
  }
}
