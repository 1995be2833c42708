// One client session of src/socket/simple_tcp/TCPServer.cpp against a kernel that answers every
// send and recv as it likes: first as a step machine over the answers, then as the code.
module EchoSession {
  import Decimal

  const BUFFER_SIZE := 1024

  // The answer to one call. A send takes at most what it was offered; a recv with a
  // non-negative count delivers at most the room it was given, and no bytes at end of stream.
  datatype Answer = Answer(count: int, bytes: string) {
    function Taken(offered: nat): int { if count > offered then offered else count }

    function Chunk(): string {
      if |bytes| < BUFFER_SIZE then bytes else bytes[..BUFFER_SIZE - 1]
    }
  }

  function Greeting(port: nat): (s: string)
    ensures s != ""
  {
    "Connected to the TCP Server on port " + Decimal.Print(port)
    + "\nType 'Q' to stop the connection.\n"
  }

  function WithoutLineEnd(line: string): string {
    if line != "" && line[|line| - 1] in "\r\n" then WithoutLineEnd(line[..|line| - 1]) else line
  }

  predicate IsQuit(chunk: string) { WithoutLineEnd(chunk) == "Q" }

  // What the session does next: send the rest of the greeting or of the last chunk, receive,
  // or nothing more (the session closes the descriptor, or its caller does after an error).
  datatype Phase =
    | Welcome(rest: string) | Receive | Echo(rest: string) | Ended(normally: bool)

  datatype Session = Session(phase: Phase, sent: string, chunks: seq<string>)

  function Start(port: nat): Session { Session(Welcome(Greeting(port)), "", []) }

  function Received(chunks: seq<string>): string {
    if chunks == [] then "" else Received(chunks[..|chunks| - 1]) + chunks[|chunks| - 1]
  }

  function Step(s: Session, a: Answer): Session {
    match s.phase
    case Welcome(rest) => SendStep(s, rest, a)
    case Echo(rest) => SendStep(s, rest, a)
    case Receive =>
      if a.count < 0 then s.(phase := Ended(false))
      else if a.Chunk() == "" then s.(phase := Ended(true))
      else s.(phase := Echo(a.Chunk()), chunks := s.chunks + [a.Chunk()])
    case Ended(_) => s
  }

  function SendStep(s: Session, rest: string, a: Answer): Session
    requires s.phase.Welcome? || s.phase.Echo?
  {
    var n := a.Taken(|rest|);
    if n <= 0 then s.(phase := Ended(false))
    else
      var s' := s.(sent := s.sent + rest[..n]);
      if n < |rest| then
        s'.(phase := if s.phase.Welcome? then Welcome(rest[n..]) else Echo(rest[n..]))
      else AfterSend(s')
  }

  // Everything is sent: stop after a quit chunk, receive otherwise.
  function AfterSend(s: Session): Session {
    s.(phase := if s.phase.Echo? && s.chunks != [] && IsQuit(s.chunks[|s.chunks| - 1])
                then Ended(true) else Receive)
  }

  function Run(s: Session, answers: seq<Answer>): Session {
    if answers == [] then s
    else Step(Run(s, answers[..|answers| - 1]), answers[|answers| - 1])
  }

  // ----- every session, whatever the kernel answers -----

  predicate Unsent(s: Session, rest: string, port: nat) {
    s.sent + rest == Greeting(port) + Received(s.chunks)
  }

  predicate NoQuitIn(chunks: seq<string>) {
    forall i :: 0 <= i < |chunks| ==> !IsQuit(chunks[i])
  }

  function ButLast(chunks: seq<string>): seq<string> {
    if chunks == [] then [] else chunks[..|chunks| - 1]
  }

  predicate EndsWithQuit(chunks: seq<string>) {
    chunks != [] && IsQuit(chunks[|chunks| - 1])
  }

  ghost predicate Inv(s: Session, port: nat) {
    && NoQuitIn(ButLast(s.chunks))
    && (forall i :: 0 <= i < |s.chunks| ==> 0 < |s.chunks[i]| < BUFFER_SIZE)
    && match s.phase
       case Welcome(rest) => rest != "" && Unsent(s, rest, port) && s.chunks == []
       case Echo(rest) => rest != "" && Unsent(s, rest, port) && s.chunks != []
       case Receive => Unsent(s, "", port) && NoQuitIn(s.chunks)
       case Ended(true) => Unsent(s, "", port)
       case Ended(false) => s.sent <= Greeting(port) + Received(s.chunks)
  }

  lemma InvStep(s: Session, a: Answer, port: nat)
    requires Inv(s, port)
    ensures Inv(Step(s, a), port)
  {
    match s.phase {
      case Welcome(rest) => SendKeeps(s, rest, a, port);
      case Echo(rest) => SendKeeps(s, rest, a, port);
      case Receive => ReceiveKeeps(s, a, port);
      case Ended(_) =>
    }
  }

  lemma SendKeeps(s: Session, rest: string, a: Answer, port: nat)
    requires Inv(s, port) && s.phase in {Welcome(rest), Echo(rest)}
    ensures Inv(SendStep(s, rest, a), port)
  {
    var n := a.Taken(|rest|);
    if n <= 0 {
      NoSendKeeps(s, rest, port);
    } else if n < |rest| {
      PartSendKeeps(s, rest, n, port);
    } else {
      LastSendKeeps(s, rest, port);
      assert rest[..n] == rest;
    }
  }

  lemma NoSendKeeps(s: Session, rest: string, port: nat)
    requires Inv(s, port) && s.phase in {Welcome(rest), Echo(rest)}
    ensures Inv(s.(phase := Ended(false)), port)
  {
    assert s.sent <= s.sent + rest;
  }

  lemma PartSendKeeps(s: Session, rest: string, n: nat, port: nat)
    requires Inv(s, port) && s.phase in {Welcome(rest), Echo(rest)} && n < |rest|
    ensures var left := if s.phase.Welcome? then Welcome(rest[n..]) else Echo(rest[n..]);
      Inv(s.(sent := s.sent + rest[..n], phase := left), port)
  {
    assert s.sent + rest[..n] + rest[n..] == s.sent + rest;
  }

  lemma LastSendKeeps(s: Session, rest: string, port: nat)
    requires Inv(s, port) && s.phase in {Welcome(rest), Echo(rest)}
    ensures Inv(AfterSend(s.(sent := s.sent + rest)), port)
  {
    assert s.sent + rest + "" == s.sent + rest;
    if s.phase.Echo? && !IsQuit(s.chunks[|s.chunks| - 1]) {
      NoQuitYet(s.chunks);
    }
  }

  lemma NoQuitYet(chunks: seq<string>)
    requires chunks != [] && NoQuitIn(ButLast(chunks)) && !IsQuit(chunks[|chunks| - 1])
    ensures NoQuitIn(chunks)
  {
    assert chunks == ButLast(chunks) + [chunks[|chunks| - 1]];
  }

  lemma ReceiveKeeps(s: Session, a: Answer, port: nat)
    requires Inv(s, port) && s.phase == Receive
    ensures Inv(Step(s, a), port)
  {
    var chunk := a.Chunk();
    if a.count >= 0 && chunk != "" {
      var chunks' := s.chunks + [chunk];
      assert ButLast(chunks') == s.chunks;
      assert s.sent == s.sent + "";
      EchoIsUnsent(s.sent, Greeting(port), Received(s.chunks), chunk);
      assert Received(chunks') == Received(s.chunks) + chunk;
    }
  }

  lemma EchoIsUnsent(sent: string, greeting: string, received: string, chunk: string)
    requires sent == greeting + received
    ensures sent + chunk == greeting + (received + chunk)
  {
  }

  lemma {:induction false} InvRun(port: nat, answers: seq<Answer>)
    ensures Inv(Run(Start(port), answers), port)
  {
    if answers == [] {
      assert Start(port).sent + Greeting(port) == Greeting(port) + "";
    } else {
      InvRun(port, answers[..|answers| - 1]);
      InvStep(Run(Start(port), answers[..|answers| - 1]), answers[|answers| - 1], port);
    }
  }

  // ----- what the kernel delivered -----

  // The bytes of one answer to a recv, as far as there is room for them.
  function Cut(bytes: string): string { if |bytes| <= 1023 then bytes else bytes[..1023] }

  // The last answer delivers bytes: it comes while the session receives, and is no error.
  predicate Delivers(port: nat, answers: seq<Answer>)
    requires answers != []
  {
    var n := |answers| - 1;
    Run(Start(port), answers[..n]).phase == Receive && answers[n].count >= 0
  }

  // The bytes of all answers that deliver some, one behind the other.
  function Delivered(port: nat, answers: seq<Answer>): string {
    if answers == [] then ""
    else
      var n := |answers| - 1;
      Delivered(port, answers[..n]) + if Delivers(port, answers) then Cut(answers[n].bytes) else ""
  }

  // The same bytes, answer by answer; the end of the stream is none.
  function Deliveries(port: nat, answers: seq<Answer>): seq<string> {
    if answers == [] then []
    else
      var n := |answers| - 1;
      Deliveries(port, answers[..n])
      + if Delivers(port, answers) && answers[n].bytes != "" then [Cut(answers[n].bytes)] else []
  }

  // What a session takes for received is what the kernel delivered.
  lemma {:induction false} ReceivesWhatIsDelivered(port: nat, answers: seq<Answer>)
    ensures Run(Start(port), answers).chunks == Deliveries(port, answers)
    ensures Received(Run(Start(port), answers).chunks) == Delivered(port, answers)
  {
    if answers != [] {
      var t, a := answers[..|answers| - 1], answers[|answers| - 1];
      ReceivesWhatIsDelivered(port, t);
      StepReceives(Run(Start(port), t), a);
    }
  }

  lemma StepReceives(s: Session, a: Answer)
    ensures var more := if s.phase == Receive && a.count >= 0 && a.bytes != "" then [Cut(a.bytes)] else [];
      Step(s, a).chunks == s.chunks + more
    ensures Received(Step(s, a).chunks)
         == Received(s.chunks) + if s.phase == Receive && a.count >= 0 then Cut(a.bytes) else ""
  {
    var chunk := Cut(a.bytes);
    assert chunk == a.Chunk() && (chunk == "" <==> a.bytes == "");
    assert (s.chunks + [chunk])[..|s.chunks|] == s.chunks;
    assert Received(s.chunks) + "" == Received(s.chunks);
  }

  // Whatever the kernel answers: what was sent is a prefix of the greeting and the delivered
  // bytes, all of it whenever the session receives or ended normally, and short of it by what it
  // still sends; only the last chunk delivered can be a quit line, and after one the session never
  // receives again.
  lemma EchoIsFaithful(port: nat, answers: seq<Answer>)
    ensures var s, all := Run(Start(port), answers), Greeting(port) + Delivered(port, answers);
      && s.sent <= all
      && (s.phase == Receive || s.phase == Ended(true) ==> s.sent == all)
      && (s.phase.Welcome? || s.phase.Echo? ==> s.sent + s.phase.rest == all)
    ensures NoQuitIn(ButLast(Deliveries(port, answers)))
    ensures Run(Start(port), answers).phase == Receive ==> NoQuitIn(Deliveries(port, answers))
  {
    InvRun(port, answers);
    ReceivesWhatIsDelivered(port, answers);
    var s := Run(Start(port), answers);
    assert s.sent + "" == s.sent;
    if s.phase.Welcome? || s.phase.Echo? {
      assert s.sent <= s.sent + s.phase.rest;
    }
  }

  // A client that sends one piece of text, to a kernel that takes all it is offered.
  lemma OneChunkEchoed(port: nat, text: string)
    requires 0 < |text| <= 1023
    ensures var greeting := Greeting(port);
      Run(Start(port), [Answer(|greeting|, ""), Answer(|text|, text), Answer(|text|, "")]).sent
      == greeting + text
  {
    var g := Greeting(port);
    var a, b, c := Answer(|g|, ""), Answer(|text|, text), Answer(|text|, "");
    RunThree(Start(port), a, b, c);
    SendsAll(Start(port), g, a);
    assert "" + g == g;
    var s := Step(Step(Start(port), a), b);
    SendsAll(s, text, c);
  }

  lemma SendsAll(s: Session, rest: string, a: Answer)
    requires s.phase in {Welcome(rest), Echo(rest)} && rest != "" && a.count == |rest|
    ensures Step(s, a).sent == s.sent + rest && Step(s, a).chunks == s.chunks
    ensures s.phase.Welcome? ==> Step(s, a).phase == Receive
  {
    assert rest[..|rest|] == rest;
  }

  lemma RunThree(s: Session, a: Answer, b: Answer, c: Answer)
    ensures Run(s, [a, b, c]) == Step(Step(Step(s, a), b), c)
  {
    assert [a, b, c][..2] == [a, b] && [a, b][..1] == [a] && [a][..0] == [];
    assert Run(s, [a]) == Step(s, a);
    assert Run(s, [a, b]) == Step(Step(s, a), b);
  }

  // The answer is the end of the stream, or completes the echo of a quit chunk, the first one.
  predicate Ends(s: Session, a: Answer) {
    || (s.phase == Receive && a.count >= 0 && a.bytes == "")
    || (s.phase.Echo? && a.count >= |s.phase.rest| > 0
        && EndsWithQuit(s.chunks) && NoQuitIn(ButLast(s.chunks)))
  }

  // The answer refuses a call that the session makes.
  predicate Fails(s: Session, a: Answer) {
    !s.phase.Ended? && if s.phase == Receive then a.count < 0 else a.count <= 0
  }

  lemma StopsByAnswer(s: Session, a: Answer, port: nat)
    requires Inv(s, port) && !s.phase.Ended?
    ensures Step(s, a).phase == Ended(true) <==> Ends(s, a)
    ensures Step(s, a).phase == Ended(false) <==> Fails(s, a)
  {
  }

  // The session before answer k.
  function Before(port: nat, answers: seq<Answer>, k: nat): Session
    requires k <= |answers|
  {
    Run(Start(port), answers[..k])
  }

  lemma BeforeNext(port: nat, answers: seq<Answer>, k: nat)
    requires k < |answers|
    ensures Before(port, answers, k + 1) == Step(Before(port, answers, k), answers[k])
  {
    assert answers[..k + 1][..k] == answers[..k];
  }

  // Answer k is the end of the stream, or completes the echo of the first quit line delivered.
  ghost predicate EndsAt(port: nat, answers: seq<Answer>, k: nat)
    requires k < |answers|
  {
    var s, a, chunks := Before(port, answers, k), answers[k], Deliveries(port, answers[..k]);
    || (s.phase == Receive && a.count >= 0 && a.bytes == "")
    || (s.phase.Echo? && a.count >= |s.phase.rest| > 0
        && EndsWithQuit(chunks) && NoQuitIn(ButLast(chunks)))
  }

  // Whatever the kernel answers, a session ends normally exactly when some answer is the end of the
  // stream or completes the echo of the first quit line delivered, and with an error exactly when
  // some call of its fails.
  lemma WhyItEnds(port: nat, answers: seq<Answer>)
    ensures Run(Start(port), answers).phase == Ended(true)
       <==> exists k :: 0 <= k < |answers| && EndsAt(port, answers, k)
    ensures Run(Start(port), answers).phase == Ended(false)
       <==> exists k :: 0 <= k < |answers| && Fails(Before(port, answers, k), answers[k])
  {
    forall k | 0 <= k < |answers|
      ensures EndsAt(port, answers, k) <==> Ends(Before(port, answers, k), answers[k])
    {
      ReceivesWhatIsDelivered(port, answers[..k]);
    }
    StopsAtOne(port, answers);
  }

  lemma StopsAtOne(port: nat, answers: seq<Answer>)
    ensures Run(Start(port), answers).phase == Ended(true)
       <==> exists k :: 0 <= k < |answers| && Ends(Before(port, answers, k), answers[k])
    ensures Run(Start(port), answers).phase == Ended(false)
       <==> exists k :: 0 <= k < |answers| && Fails(Before(port, answers, k), answers[k])
  {
    forall k | 0 <= k < |answers|
      ensures Ends(Before(port, answers, k), answers[k]) ==>
        Run(Start(port), answers).phase == Ended(true)
      ensures Fails(Before(port, answers, k), answers[k]) ==>
        Run(Start(port), answers).phase == Ended(false)
    {
      if Ends(Before(port, answers, k), answers[k]) || Fails(Before(port, answers, k), answers[k]) {
        StopIsFinal(port, answers, k);
      }
    }
    if Run(Start(port), answers).phase.Ended? {
      var k := StopOf(port, answers);
    }
  }

  // Answer k stops the session, and later answers do not matter.
  lemma StopIsFinal(port: nat, answers: seq<Answer>, k: nat)
    requires k < |answers|
    requires var s, a := Before(port, answers, k), answers[k]; Ends(s, a) || Fails(s, a)
    ensures Run(Start(port), answers) == Before(port, answers, k + 1)
    ensures Run(Start(port), answers).phase == Ended(Ends(Before(port, answers, k), answers[k]))
  {
    InvRun(port, answers[..k]);
    StopsNext(port, Before(port, answers, k), answers[k], Before(port, answers, k + 1)) by {
      BeforeNext(port, answers, k);
    }
    StaysEnded(Start(port), answers, k + 1, |answers|);
    assert answers[..|answers|] == answers;
  }

  lemma StopsNext(port: nat, s: Session, a: Answer, s': Session)
    requires Inv(s, port) && s' == Step(s, a) && (Ends(s, a) || Fails(s, a))
    ensures s'.phase == Ended(Ends(s, a))
  {
    StopsByAnswer(s, a, port);
  }

  // The answer that stopped an ended session.
  lemma {:induction false} StopOf(port: nat, answers: seq<Answer>) returns (k: nat)
    requires Run(Start(port), answers).phase.Ended?
    ensures k < |answers|
    ensures if Run(Start(port), answers).phase == Ended(true)
            then Ends(Before(port, answers, k), answers[k])
            else Fails(Before(port, answers, k), answers[k])
    decreases |answers|
  {
    var n := |answers| - 1;
    var t := answers[..n];
    if Run(Start(port), t).phase.Ended? {
      k := StopOf(port, t);
      assert t[..k] == answers[..k];
    } else {
      k := n;
      InvRun(port, t);
      StopsByAnswer(Run(Start(port), t), answers[n], port);
    }
  }

  lemma {:induction false} StaysEnded(s: Session, answers: seq<Answer>, j: nat, k: nat)
    requires j <= k <= |answers| && Run(s, answers[..j]).phase.Ended?
    ensures Run(s, answers[..k]) == Run(s, answers[..j])
    decreases k
  {
    if j < k {
      StaysEnded(s, answers, j, k - 1);
      assert answers[..k][..k - 1] == answers[..k - 1];
    }
  }

  predicate LineEnds(t: string) { forall c :: c in t ==> c in "\r\n" }

  // A quit line is Q followed by any carriage returns and line feeds.
  lemma {:induction false} QuitMeans(chunk: string)
    ensures IsQuit(chunk) <==> chunk != "" && chunk[0] == 'Q' && LineEnds(chunk[1..])
    decreases chunk
  {
    var n := |chunk| - 1;
    if chunk != "" && chunk[n] in "\r\n" {
      QuitMeans(chunk[..n]);
      if n > 0 {
        assert chunk[1..] == chunk[..n][1..] + [chunk[n]];
      }
    } else if |chunk| > 1 {
      assert chunk[n] in chunk[1..];
    }
  }

  // ----- the code -----

  // An accepted connection: what the kernel will answer, what it has answered, the bytes put on
  // the wire, and how often the descriptor was closed.
  class Connection {
    var answers: seq<Answer>
    ghost var history: seq<Answer>
    var wire: string
    var closes: nat

    constructor (answers: seq<Answer>)
      ensures this.answers == answers && history == [] && wire == "" && closes == 0
    {
      this.answers, history, wire, closes := answers, [], "", 0;
    }

    method Send(data: string) returns (sent: int)
      requires closes == 0 && answers != []
      modifies this
      ensures var a := old(answers[0]);
        && answers == old(answers[1..]) && history == old(history) + [a]
        && sent == a.Taken(|data|) && closes == old(closes)
        && wire == old(wire) + data[..if sent < 0 then 0 else sent]
    {
      sent := answers[0].Taken(|data|);
      history := history + [answers[0]];
      answers := answers[1..];
      wire := wire + data[..if sent < 0 then 0 else sent];
    }

    method Recv(buffer: array<char>, room: nat) returns (bytes: int)
      requires closes == 0 && answers != [] && room == BUFFER_SIZE - 1 < buffer.Length
      modifies this, buffer
      ensures var a := old(answers[0]);
        && answers == old(answers[1..]) && history == old(history) + [a]
        && wire == old(wire) && closes == old(closes)
        && if a.count < 0 then bytes < 0
           else bytes == |a.Chunk()| && buffer[..bytes] == a.Chunk()
    {
      var a := answers[0];
      history := history + [a];
      answers := answers[1..];
      if a.count < 0 {
        return -1;
      }
      var chunk := a.Chunk();
      bytes := |chunk|;
      forall i | 0 <= i < bytes {
        buffer[i] := chunk[i];
      }
      assert buffer[..bytes] == chunk;
    }

    // A second close of the same descriptor is not allowed.
    method Close()
      requires closes == 0
      modifies this`closes
      ensures closes == 1
    {
      closes := 1;
    }

    // How the session stands after the answers so far.
    ghost function Now(port: nat): Session
      reads this
    {
      Run(Start(port), history)
    }

    // On the wire are the greeting and the bytes delivered, up to where the session stands: all of
    // them once it has ended normally.
    ghost predicate Echoed(port: nat)
      reads this
    {
      && wire == Now(port).sent
      && wire <= Greeting(port) + Delivered(port, history)
      && (Now(port).phase == Ended(true) ==> wire == Greeting(port) + Delivered(port, history))
    }
  }

  // Blocked: the kernel has not answered yet, so the call has not returned.
  datatype Outcome = Returned | Threw | Blocked

  lemma RunExtends(s: Session, h: seq<Answer>, a: Answer)
    ensures Run(s, h + [a]) == Step(Run(s, h), a)
  {
    assert (h + [a])[..|h|] == h;
  }

  // The phase when `total` of the offered data is sent.
  function SendingFrom(s: Session, data: string, total: nat): Phase
    requires total <= |data|
  {
    if total == |data| then AfterSend(s).phase
    else if s.phase.Welcome? then Welcome(data[total..]) else Echo(data[total..])
  }

  lemma SendAdvances(s0: Session, s: Session, data: string, total: nat, a: Answer)
    requires s0.phase in {Welcome(data), Echo(data)} && total < |data|
    requires s.chunks == s0.chunks && s.phase == SendingFrom(s0, data, total)
    ensures var n := a.Taken(|data| - total);
      && Step(s, a).chunks == s0.chunks
      && Step(s, a).sent == s.sent + data[total..][..if n < 0 then 0 else n]
      && Step(s, a).phase == if n <= 0 then Ended(false) else SendingFrom(s0, data, total + n)
  {
    var n := a.Taken(|data| - total);
    if n > 0 {
      assert data[total..][n..] == data[total + n..];
    }
  }

  // One send of sendAll, which offers what is left.
  method SendSome(c: Connection, data: string, total: nat, ghost port: nat, ghost s0: Session)
      returns (sent: int)
    requires c.closes == 0 && c.answers != [] && c.wire == c.Now(port).sent
    requires s0.phase in {Welcome(data), Echo(data)} && total < |data|
    requires c.Now(port).chunks == s0.chunks && c.Now(port).phase == SendingFrom(s0, data, total)
    modifies c
    ensures c.closes == 0 && |c.answers| < |old(c.answers)| && c.wire == c.Now(port).sent
    ensures c.Now(port).chunks == s0.chunks && sent <= |data| - total
    ensures c.Now(port).phase == if sent <= 0 then Ended(false) else SendingFrom(s0, data, total + sent)
  {
    ghost var s, a := c.Now(port), c.answers[0];
    RunExtends(Start(port), c.history, a);
    SendAdvances(s0, s, data, total, a);
    sent := c.Send(data[total..]);
  }

  // sendAll: offers what is left until all is sent.
  method SendAll(c: Connection, data: string, ghost port: nat) returns (outcome: Outcome)
    requires c.closes == 0 && c.wire == c.Now(port).sent && data != ""
    requires c.Now(port).phase in {Welcome(data), Echo(data)}
    modifies c
    ensures c.closes == 0 && c.wire == c.Now(port).sent && |c.answers| <= |old(c.answers)|
    ensures outcome == Blocked ==> c.answers == [] && !c.Now(port).phase.Ended?
    ensures outcome == Threw ==> c.Now(port).phase == Ended(false)
    ensures outcome == Returned ==>
      && c.Now(port).chunks == old(c.Now(port).chunks)
      && c.Now(port).phase == AfterSend(old(c.Now(port))).phase
  {
    var total := 0;
    ghost var s0 := c.Now(port);
    while total < |data|
      invariant 0 <= total <= |data|
      invariant c.closes == 0 && c.wire == c.Now(port).sent && |c.answers| <= |old(c.answers)|
      invariant c.Now(port).chunks == s0.chunks
      invariant c.Now(port).phase == SendingFrom(s0, data, total)
    {
      if c.answers == [] {
        return Blocked;
      }
      var sent := SendSome(c, data, total, port, s0);
      if sent <= 0 {
        return Threw;
      }
      total := total + sent;
    }
    return Returned;
  }

  // handleClient: closes the connection itself unless it throws.
  method HandleClient(c: Connection, port: nat) returns (outcome: Outcome)
    requires c.closes == 0 && c.history == [] && c.wire == ""
    modifies c
    ensures c.Echoed(port)
    ensures outcome == Returned ==> c.Now(port).phase == Ended(true) && c.closes == 1
    ensures outcome == Threw ==> c.Now(port).phase == Ended(false) && c.closes == 0
    ensures outcome == Blocked ==>
      c.answers == [] && !c.Now(port).phase.Ended? && c.closes == 0
  {
    var buffer := new char[BUFFER_SIZE];
    outcome := SendAll(c, Greeting(port), port);
    if outcome != Returned {
      EchoIsFaithful(port, c.history);
      return;
    }
    var again := true;
    while again
      invariant outcome == Returned
      invariant c.closes == 0 && c.wire == c.Now(port).sent
      invariant c.Now(port).phase == if again then Receive else Ended(true)
      invariant fresh(buffer) && buffer.Length == BUFFER_SIZE
      decreases |c.answers|, again
    {
      outcome, again := EchoChunk(c, buffer, port);
      if outcome != Returned {
        EchoIsFaithful(port, c.history);
        return;
      }
    }
    EchoIsFaithful(port, c.history);
    c.Close();
  }

  // One turn of the session's loop: receive a chunk and echo it; `again` unless it breaks.
  method EchoChunk(c: Connection, buffer: array<char>, ghost port: nat)
    returns (outcome: Outcome, again: bool)
    requires c.closes == 0 && c.wire == c.Now(port).sent && c.Now(port).phase == Receive
    requires buffer.Length == BUFFER_SIZE
    modifies c, buffer
    ensures c.closes == 0 && c.wire == c.Now(port).sent
    ensures outcome == Blocked ==> c.answers == [] && !c.Now(port).phase.Ended?
    ensures outcome == Threw ==> c.Now(port).phase == Ended(false)
    ensures outcome == Returned ==>
      |c.answers| < |old(c.answers)| && c.Now(port).phase == if again then Receive else Ended(true)
  {
    if c.answers == [] {
      return Blocked, false;
    }
    ghost var a := c.answers[0];
    RunExtends(Start(port), c.history, a);
    var bytes := c.Recv(buffer, BUFFER_SIZE - 1);
    if bytes == 0 {
      return Returned, false;
    }
    if bytes < 0 {
      return Threw, false;
    }
    var line := buffer[..bytes];
    buffer[bytes] := '\0';
    assert line == a.Chunk() == buffer[..bytes];
    outcome := SendAll(c, line, port);
    again := WithoutLineEnd(line) != "Q";
  }

  // The accept loop of the sequential server; null stands for a failed accept. It serves the
  // clients in order and stops at the first one whose kernel no longer answers.
  method AcceptLoop(clients: seq<Connection?>, port: nat) returns (served: nat)
    requires forall i, j :: 0 <= i < j < |clients| && clients[i] != null ==> clients[i] != clients[j]
    requires forall c :: c in clients && c != null ==>
      c.closes == 0 && c.history == [] && c.wire == ""
    modifies set c | c in clients && c != null :: c
    ensures served <= |clients|
    ensures forall i :: 0 <= i < served && clients[i] != null ==>
      clients[i].closes == 1 && clients[i].Now(port).phase.Ended? && clients[i].Echoed(port)
    ensures forall i :: served <= i < |clients| && clients[i] != null ==> clients[i].closes == 0
    ensures served < |clients| ==>
      clients[served] != null && clients[served].answers == []
      && !clients[served].Now(port).phase.Ended?
  {
    served := 0;
    while served < |clients|
      invariant served <= |clients|
      invariant forall i :: 0 <= i < served && clients[i] != null ==>
        clients[i].closes == 1 && clients[i].Now(port).phase.Ended? && clients[i].Echoed(port)
      invariant forall i :: served <= i < |clients| && clients[i] != null ==>
        clients[i].closes == 0 && clients[i].history == [] && clients[i].wire == ""
    {
      var client := clients[served];
      assert client in clients;
      if client != null {
        var outcome := HandleClient(client, port);
        if outcome == Blocked {
          return;
        }
        if outcome == Threw {
          client.Close();
        }
      }
      served := served + 1;
    }
  }
}
