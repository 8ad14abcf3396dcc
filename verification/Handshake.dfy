/**
  The handshake between the service manager and its clients: any number of connections, each served
  by a forked process, with every interleaving of connects, accepts, forks, reads, writes and closes.
 */
module Handshake {
  import opened Wrappers

  // ---------- Messages ----------

  const SIGNAL_INIT: nat := 0
  const SIGNAL_ACCEPT: nat := 2

  datatype Service = BackupService | FirewallService

  datatype Message = Message(processId: nat, signal: nat, text: string)

  function ProcessId(s: Service): nat {
    match s
    case BackupService => 0
    case FirewallService => 1
  }

  function Hello(s: Service): Message {
    Message(ProcessId(s), SIGNAL_INIT, ZeroText())
  }

  /** A zeroed message struct. */
  function NoAnswer(): Message {
    Message(0, 0, ZeroText())
  }

  function ZeroText(): (s: string)
    ensures |s| == 512
  {
    seq(512, i => '\0')
  }

  /** The manager answers an INIT of either service type, whoever sent it. */
  predicate IsInit(m: Message) {
    && (m.processId == ProcessId(BackupService) || m.processId == ProcessId(FirewallService))
    && m.signal == SIGNAL_INIT
  }

  function Accepted(m: Message): Message {
    m.(signal := SIGNAL_ACCEPT)
  }

  /** The answers to a sequence of messages: one for each INIT, the same message with only the signal changed. */
  function Replies(ms: seq<Message>): seq<Message> {
    if ms == [] then []
    else Replies(ms[..|ms| - 1]) + if IsInit(ms[|ms| - 1]) then [Accepted(ms[|ms| - 1])] else []
  }

  function Inits(ms: seq<Message>): nat {
    if ms == [] then 0 else Inits(ms[..|ms| - 1]) + if IsInit(ms[|ms| - 1]) then 1 else 0
  }

  // ---------- Processes ----------

  type Conn = nat
  type Pid = nat
  type Fd = int

  /** A connecting process: one of the services, or anything else that writes what it likes. */
  datatype Kind = Is(service: Service) | Stranger

  datatype ClientPc = ToAsk | ToRead | Deciding(answer: Message) | Started | Finished

  /** Both directions of a connection as logs, with how much of each has been read. */
  datatype Link = Link(kind: Kind, pc: ClientPc, toServer: seq<Message>, taken: nat, toClient: seq<Message>, got: nat)

  datatype ParentPc = Accepting | ToFork | ToClose

  /** The accepting process; its descriptor numbers are reused after a close. */
  datatype Parent = Parent(pc: ParentPc, newsockfd: Fd, argsFd: Fd, fds: map<Fd, Conn>)

  datatype HandlerPc = Reading | Writing | Exited

  /** A serving process, with the copies of the arguments and of the descriptor table that the fork made. */
  datatype Handler = Handler(pc: HandlerPc, argsFd: Fd, fds: map<Fd, Conn>, message: Message)

  /** `servedBy` only records which process was forked for a connection. */
  datatype State = State(links: map<Conn, Link>, waiting: set<Conn>, parent: Parent, handlers: map<Pid, Handler>, servedBy: map<Conn, Pid>)

  ghost predicate Init(s: State) {
    s.links == map[] && s.waiting == {} && s.parent.pc == Accepting && s.parent.fds == map[] && s.handlers == map[] && s.servedBy == map[]
  }

  datatype Action =
    | Connect(c: Conn, kind: Kind)
    | Send(c: Conn, m: Message)
    | Receive(c: Conn, eof: bool)
    | Decide(c: Conn)
    | Accept(c: Conn, fd: Fd)
    | Fork(pid: Pid)
    | Close
    | HandlerRead(pid: Pid, eof: bool)
    | HandlerWrite(pid: Pid, ok: bool)

  predicate Enabled(s: State, a: Action) {
    match a
    case Connect(c, _) => c !in s.links
    case Send(c, m) =>
      c in s.links && (s.links[c].kind.Stranger? || (s.links[c].pc.ToAsk? && m == Hello(s.links[c].kind.service)))
    case Receive(c, eof) => c in s.links && s.links[c].pc.ToRead? && (eof || s.links[c].got < |s.links[c].toClient|)
    case Decide(c) => c in s.links && s.links[c].pc.Deciding?
    case Accept(c, fd) => s.parent.pc.Accepting? && c in s.waiting && c in s.links && fd !in s.parent.fds
    case Fork(pid) => s.parent.pc.ToFork? && pid !in s.handlers && s.parent.newsockfd in s.parent.fds
    case Close => s.parent.pc.ToClose?
    case HandlerRead(pid, eof) =>
      && HandlerCan(s, pid, Reading)
      && (eof || s.links[ServedConn(s.handlers[pid])].taken < |s.links[ServedConn(s.handlers[pid])].toServer|)
    case HandlerWrite(pid, _) => HandlerCan(s, pid, Writing)
  }

  predicate HandlerCan(s: State, pid: Pid, pc: HandlerPc) {
    && pid in s.handlers && s.handlers[pid].pc == pc
    && s.handlers[pid].argsFd in s.handlers[pid].fds
    && ServedConn(s.handlers[pid]) in s.links
  }

  /** The connection that a serving process reads and writes, through its own descriptor table. */
  function ServedConn(h: Handler): Conn
    requires h.argsFd in h.fds
  {
    h.fds[h.argsFd]
  }

  /** Replaces the record of connection c. */
  function WithLink(s: State, c: Conn, l: Link): State {
    s.(links := s.links[c := l])
  }

  function WithHandler(s: State, pid: Pid, h: Handler): State {
    s.(handlers := s.handlers[pid := h])
  }

  /** A client reads its next message, or the end of the stream, which leaves its answer zeroed. */
  function Received(l: Link, eof: bool): Link
    requires eof || l.got < |l.toClient|
  {
    if eof then l.(pc := Deciding(NoAnswer())) else l.(pc := Deciding(l.toClient[l.got]), got := l.got + 1)
  }

  /** A client that was accepted starts its service. */
  function Decided(l: Link): Link
    requires l.pc.Deciding?
  {
    l.(pc := if l.pc.answer.signal == SIGNAL_ACCEPT then Started else Finished)
  }

  function AfterRead(h: Handler, m: Message): Handler {
    if IsInit(m) then h.(message := Accepted(m), pc := Writing) else h.(message := m)
  }

  function Step(s: State, a: Action): State
    requires Enabled(s, a)
  {
    match a
    case Connect(c, kind) => WithLink(s, c, Link(kind, ToAsk, [], 0, [], 0)).(waiting := s.waiting + {c})
    case Send(c, m) => WithLink(s, c, s.links[c].(toServer := s.links[c].toServer + [m], pc := ToRead))
    case Receive(c, eof) => WithLink(s, c, Received(s.links[c], eof))
    case Decide(c) => WithLink(s, c, Decided(s.links[c]))
    case Accept(c, fd) =>
      s.(waiting := s.waiting - {c}, parent := Parent(ToFork, fd, fd, s.parent.fds[fd := c]))
    case Fork(pid) =>
      WithHandler(s, pid, Handler(Reading, s.parent.argsFd, s.parent.fds, NoAnswer())).(
        parent := s.parent.(pc := ToClose),
        servedBy := s.servedBy[s.parent.fds[s.parent.newsockfd] := pid])
    case Close =>
      s.(parent := s.parent.(pc := Accepting, fds := s.parent.fds - {s.parent.newsockfd}))
    case HandlerRead(pid, eof) => HandlerReads(s, pid, eof)
    case HandlerWrite(pid, ok) => HandlerWrites(s, pid, ok)
  }

  function HandlerReads(s: State, pid: Pid, eof: bool): State
    requires HandlerCan(s, pid, Reading)
    requires eof || s.links[ServedConn(s.handlers[pid])].taken < |s.links[ServedConn(s.handlers[pid])].toServer|
  {
    var h := s.handlers[pid];
    var c := ServedConn(h);
    var l := s.links[c];
    if eof then WithHandler(s, pid, h.(pc := Exited))
    else WithHandler(WithLink(s, c, l.(taken := l.taken + 1)), pid, AfterRead(h, l.toServer[l.taken]))
  }

  function HandlerWrites(s: State, pid: Pid, ok: bool): State
    requires HandlerCan(s, pid, Writing)
  {
    var h := s.handlers[pid];
    var c := ServedConn(h);
    var l := s.links[c];
    if ok then WithHandler(WithLink(s, c, l.(toClient := l.toClient + [h.message])), pid, h.(pc := Reading))
    else WithHandler(s, pid, h.(pc := Exited))
  }

  ghost predicate IsRun(run: seq<State>) {
    && run != [] && Init(run[0])
    && forall i :: 0 <= i < |run| - 1 ==> StepAt(run, i)
  }

  ghost predicate StepAt(run: seq<State>, i: nat)
    requires i + 1 < |run|
  {
    exists a :: Enabled(run[i], a) && run[i + 1] == Step(run[i], a)
  }

  // ---------- The reading loop is a run of its transitions ----------

  /** A step of serving process pid. */
  ghost predicate HandlerStep(s: State, s': State, pid: Pid) {
    || (exists eof :: Enabled(s, HandlerRead(pid, eof)) && s' == Step(s, HandlerRead(pid, eof)))
    || (exists ok :: Enabled(s, HandlerWrite(pid, ok)) && s' == Step(s, HandlerWrite(pid, ok)))
  }

  ghost predicate HandlerStepAt(run: seq<State>, pid: Pid, i: nat)
    requires i + 1 < |run|
  {
    HandlerStep(run[i], run[i + 1], pid)
  }

  ghost predicate IsHandlerRun(run: seq<State>, pid: Pid, s: State, t: State) {
    && run != [] && run[0] == s && run[|run| - 1] == t
    && forall i :: 0 <= i < |run| - 1 ==> HandlerStepAt(run, pid, i)
  }

  lemma HandlerRunExtends(run: seq<State>, pid: Pid, s: State, t: State, t': State)
    requires IsHandlerRun(run, pid, s, t) && HandlerStep(t, t', pid)
    ensures IsHandlerRun(run + [t'], pid, s, t')
  {
    var longer := run + [t'];
    forall i | 0 <= i < |longer| - 1 ensures HandlerStepAt(longer, pid, i) {
      if i < |run| - 1 {
        assert HandlerStepAt(run, pid, i);
      }
    }
  }

  /** The state in which process pid has got this far with its connection; nothing else has moved since s. */
  function Served(s: State, pid: Pid, l: Link, pc: HandlerPc, message: Message): State
    requires pid in s.handlers && s.handlers[pid].argsFd in s.handlers[pid].fds
  {
    WithHandler(WithLink(s, ServedConn(s.handlers[pid]), l), pid, s.handlers[pid].(pc := pc, message := message))
  }

  lemma NotYetServed(s: State, pid: Pid)
    requires HandlerCan(s, pid, Reading)
    ensures Served(s, pid, s.links[ServedConn(s.handlers[pid])], Reading, s.handlers[pid].message) == s
  {
    var c := ServedConn(s.handlers[pid]);
    assert s.links[c := s.links[c]] == s.links && s.handlers[pid := s.handlers[pid]] == s.handlers;
  }

  lemma MessageRead(s: State, pid: Pid, l: Link, message: Message)
    requires HandlerCan(s, pid, Reading) && l.taken < |l.toServer|
    ensures var m, l' := l.toServer[l.taken], l.(taken := l.taken + 1);
      HandlerStep(Served(s, pid, l, Reading, message),
                  if IsInit(m) then Served(s, pid, l', Writing, Accepted(m)) else Served(s, pid, l', Reading, m), pid)
  {
    var t := Served(s, pid, l, Reading, message);
    assert Enabled(t, HandlerRead(pid, false));
    ServedTwice(s, pid, l, l.(taken := l.taken + 1), Reading, message, AfterRead(t.handlers[pid], l.toServer[l.taken]));
  }

  lemma NothingRead(s: State, pid: Pid, l: Link, message: Message)
    requires HandlerCan(s, pid, Reading)
    ensures HandlerStep(Served(s, pid, l, Reading, message), Served(s, pid, l, Exited, message), pid)
  {
    var t := Served(s, pid, l, Reading, message);
    assert Enabled(t, HandlerRead(pid, true));
    ServedTwice(s, pid, l, l, Reading, message, t.handlers[pid].(pc := Exited));
  }

  lemma AnswerWritten(s: State, pid: Pid, l: Link, message: Message, ok: bool)
    requires HandlerCan(s, pid, Reading)
    ensures HandlerStep(Served(s, pid, l, Writing, message),
                        if ok then Served(s, pid, l.(toClient := l.toClient + [message]), Reading, message)
                        else Served(s, pid, l, Exited, message), pid)
  {
    var t := Served(s, pid, l, Writing, message);
    assert Enabled(t, HandlerWrite(pid, ok));
    ServedTwice(s, pid, l, l.(toClient := l.toClient + [message]), Writing, message, t.handlers[pid].(pc := Reading));
    ServedTwice(s, pid, l, l, Writing, message, t.handlers[pid].(pc := Exited));
  }

  /** A later record of the process and its connection replaces an earlier one. */
  lemma ServedTwice(s: State, pid: Pid, l: Link, l': Link, pc: HandlerPc, message: Message, h: Handler)
    requires HandlerCan(s, pid, Reading)
    ensures var c, t := ServedConn(s.handlers[pid]), Served(s, pid, l, pc, message);
      && t.links[c] == l && t.links[c := l'] == s.links[c := l']
      && t.handlers[pid := h] == s.handlers[pid := h]
  {
  }

  lemma RepliesStep(l: Link, from: nat)
    requires from <= l.taken < |l.toServer|
    ensures Replies(l.toServer[from..l.taken + 1]) ==
            Replies(l.toServer[from..l.taken]) + if IsInit(l.toServer[l.taken]) then [Accepted(l.toServer[l.taken])] else []
  {
    var ms := l.toServer[from..l.taken + 1];
    assert ms[..|ms| - 1] == l.toServer[from..l.taken];
  }

  /** No write of an answer to one of the messages from m up to n fails. */
  ghost predicate AllWritten(ms: seq<Message>, writes: nat -> bool, m: nat, n: nat)
    requires n <= |ms|
  {
    forall i: nat :: m <= i < n && IsInit(ms[i]) ==> writes(i)
  }

  lemma WrittenNext(ms: seq<Message>, writes: nat -> bool, m: nat, n: nat, end: nat)
    requires m <= n < end <= |ms|
    ensures AllWritten(ms, writes, m, n + 1) <==> AllWritten(ms, writes, m, n) && (IsInit(ms[n]) ==> writes(n))
    ensures IsInit(ms[n]) && !writes(n) ==> !AllWritten(ms, writes, m, end)
  {
    hide IsInit;
  }

  /**
    The reading loop of a serving process, on its own: each read overwrites `message`. `arriving` is how
    many messages come before the stream ends, and writes(i) whether an answer to the i-th can be written.
    Whatever it reads and writes is a run of its transitions. It reads every message and answers each
    INIT, in order, unless a write fails, which loses the answer in hand and ends the process.
   */
  method Serve(s: State, pid: Pid, arriving: nat, writes: nat -> bool)
    returns (l: Link, message: Message, lost: bool, ghost run: seq<State>)
    requires HandlerCan(s, pid, Reading)
    requires var l0 := s.links[ServedConn(s.handlers[pid])]; l0.taken <= arriving <= |l0.toServer|
    ensures IsHandlerRun(run, pid, s, Served(s, pid, l, Exited, message))
    ensures var l0 := s.links[ServedConn(s.handlers[pid])];
      && l == l0.(taken := l.taken, toClient := l.toClient) && l0.taken <= l.taken <= arriving
      && l.toClient + (if lost then [message] else []) == l0.toClient + Replies(l.toServer[l0.taken..l.taken])
      && (!lost <==> AllWritten(l0.toServer, writes, l0.taken, arriving))
      && (!lost ==> l.taken == arriving)
  {
    hide Served, HandlerStep, IsHandlerRun, Replies, AllWritten;
    ghost var l0 := s.links[ServedConn(s.handlers[pid])];
    l, message, lost := s.links[ServedConn(s.handlers[pid])], s.handlers[pid].message, false;
    run := [s];
    StartServing(s, pid);
    assert l.toServer[l0.taken..l.taken] == [] && l0.toClient + [] == l0.toClient;
    NoneWritten(l.toServer, writes, l.taken);
    while l.taken < arriving
      invariant IsHandlerRun(run, pid, s, Served(s, pid, l, Reading, message))
      invariant l == l0.(taken := l.taken, toClient := l.toClient) && l0.taken <= l.taken <= arriving
      invariant !lost && l.toClient == l0.toClient + Replies(l.toServer[l0.taken..l.taken])
      invariant AllWritten(l0.toServer, writes, l0.taken, l.taken)
    {
      MessageRead(s, pid, l, message);
      RepliesStep(l, l0.taken);
      WrittenNext(l.toServer, writes, l0.taken, l.taken, arriving);
      ghost var t := Served(s, pid, l, Reading, message);
      var ok := writes(l.taken);
      message := l.toServer[l.taken];
      l := l.(taken := l.taken + 1);
      if (message.processId == ProcessId(BackupService) && message.signal == SIGNAL_INIT)
         || (message.processId == ProcessId(FirewallService) && message.signal == SIGNAL_INIT)
      {
        message := message.(signal := SIGNAL_ACCEPT);
        ghost var t' := Served(s, pid, l, Writing, message);
        HandlerRunExtends(run, pid, s, t, t');
        run := run + [t'];
        AnswerWritten(s, pid, l, message, ok);
        if !ok {
          HandlerRunExtends(run, pid, s, t', Served(s, pid, l, Exited, message));
          run := run + [Served(s, pid, l, Exited, message)];
          lost := true;
          return;
        }
        l := l.(toClient := l.toClient + [message]);
        HandlerRunExtends(run, pid, s, t', Served(s, pid, l, Reading, message));
        run := run + [Served(s, pid, l, Reading, message)];
      } else {
        HandlerRunExtends(run, pid, s, t, Served(s, pid, l, Reading, message));
        run := run + [Served(s, pid, l, Reading, message)];
      }
    }
    NothingRead(s, pid, l, message);
    HandlerRunExtends(run, pid, s, Served(s, pid, l, Reading, message), Served(s, pid, l, Exited, message));
    run := run + [Served(s, pid, l, Exited, message)];
  }

  lemma NoneWritten(ms: seq<Message>, writes: nat -> bool, n: nat)
    requires n <= |ms|
    ensures AllWritten(ms, writes, n, n)
  {
  }

  lemma StartServing(s: State, pid: Pid)
    requires HandlerCan(s, pid, Reading)
    ensures IsHandlerRun([s], pid, s, Served(s, pid, s.links[ServedConn(s.handlers[pid])], Reading, s.handlers[pid].message))
    ensures Replies([]) == []
  {
    NotYetServed(s, pid);
  }

  // ---------- The invariant ----------

  /** What a service's client has sent and received at each program point. */
  ghost predicate ClientOk(l: Link) {
    && l.taken <= |l.toServer| && l.got <= |l.toClient|
    && (l.kind.Is? ==>
          && l.toServer == (if l.pc.ToAsk? then [] else [Hello(l.kind.service)])
          && (l.pc.ToAsk? || l.pc.ToRead? ==> l.got == 0)
          && (l.pc.Deciding? ==>
                || (l.got == 0 && l.pc.answer == NoAnswer())
                || (l.got == 1 && l.pc.answer == l.toClient[0] && l.pc.answer.signal == SIGNAL_ACCEPT))
          && (l.pc.Started? ==> l.got == 1 && l.toClient[0].signal == SIGNAL_ACCEPT)
          && (l.pc.Finished? ==> l.got == 0))
  }

  /** The replies owed for what was read. */
  ghost function Due(l: Link): seq<Message> {
    if l.taken <= |l.toServer| then Replies(l.toServer[..l.taken]) else []
  }

  /** The replies written so far: all that are due, or all but one that is being written or was lost. */
  ghost predicate RepliesOk(l: Link, server: Option<Handler>) {
    match server
    case None => l.taken == 0 && l.toClient == []
    case Some(Handler(Reading, _, _, _)) => l.toClient == Due(l)
    case Some(Handler(Writing, _, _, m)) => l.toClient + [m] == Due(l)
    case Some(Handler(Exited, _, _, _)) =>
      l.toClient == Due(l) || (Due(l) != [] && l.toClient == Due(l)[..|Due(l)| - 1])
  }

  ghost function HandlerOf(s: State, c: Conn): Option<Handler> {
    if c in s.servedBy && s.servedBy[c] in s.handlers then Some(s.handlers[s.servedBy[c]]) else None
  }

  ghost predicate LinkOk(s: State, c: Conn) {
    c in s.links ==> ClientOk(s.links[c]) && RepliesOk(s.links[c], HandlerOf(s, c))
  }

  /** A serving process's descriptor leads to its own connection, and to no other process's. */
  ghost predicate HandlerOk(s: State, pid: Pid) {
    pid in s.handlers ==>
      var h := s.handlers[pid];
      h.argsFd in h.fds && ServedConn(h) in s.links && ServedConn(h) in s.servedBy && s.servedBy[ServedConn(h)] == pid
  }

  ghost predicate ServedOk(s: State, c: Conn) {
    c in s.servedBy ==>
      && c !in s.waiting && s.servedBy[c] in s.handlers
      && HandlerOk(s, s.servedBy[c]) && ServedConn(s.handlers[s.servedBy[c]]) == c
  }

  ghost predicate ParentOk(s: State) {
    && (s.parent.pc.ToFork? ==>
          && s.parent.newsockfd in s.parent.fds && s.parent.argsFd == s.parent.newsockfd
          && var c := s.parent.fds[s.parent.newsockfd];
             c in s.links && c !in s.servedBy && c !in s.waiting)
    && (forall c :: c in s.waiting ==> c in s.links && c !in s.servedBy)
  }

  ghost predicate Inv(s: State) {
    && (forall c :: LinkOk(s, c))
    && (forall pid :: HandlerOk(s, pid))
    && (forall c :: ServedOk(s, c))
    && ParentOk(s)
  }

  // ---------- Every step keeps the invariant ----------

  lemma PrefixStays(l: Link, l': Link)
    requires l.taken <= |l.toServer| && l.toServer <= l'.toServer && l'.taken == l.taken
    ensures Due(l') == Due(l)
  {
    assert l'.toServer[..l.taken] == l.toServer[..l.taken];
  }

  /** A client's own step: it may send more and read more, and touches nothing else. */
  lemma ClientStepKeepsInv(s: State, c: Conn, l': Link)
    requires Inv(s) && c in s.links && ClientOk(l')
    requires s.links[c].toServer <= l'.toServer && l'.taken == s.links[c].taken && l'.toClient == s.links[c].toClient
    ensures Inv(WithLink(s, c, l'))
  {
    var s' := WithLink(s, c, l');
    assert LinkOk(s, c);
    PrefixStays(s.links[c], l');
    forall d ensures LinkOk(s', d) {
      assert LinkOk(s, d);
    }
    forall pid ensures HandlerOk(s', pid) {
      assert HandlerOk(s, pid);
    }
    forall d ensures ServedOk(s', d) {
      assert ServedOk(s, d);
    }
  }

  lemma SendKeepsInv(s: State, c: Conn, m: Message)
    requires Inv(s) && Enabled(s, Send(c, m))
    ensures Inv(Step(s, Send(c, m)))
  {
    assert LinkOk(s, c);
    ClientStepKeepsInv(s, c, s.links[c].(toServer := s.links[c].toServer + [m], pc := ToRead));
  }

  lemma {:induction false} RepliesAccept(ms: seq<Message>)
    ensures forall i :: 0 <= i < |Replies(ms)| ==> Replies(ms)[i].signal == SIGNAL_ACCEPT
  {
    if ms != [] {
      RepliesAccept(ms[..|ms| - 1]);
    }
  }

  /** The manager never writes anything but acceptances. */
  lemma WrittenIsAccept(l: Link, server: Option<Handler>, i: nat)
    requires RepliesOk(l, server) && i < |l.toClient|
    ensures l.toClient[i].signal == SIGNAL_ACCEPT
  {
    if l.taken <= |l.toServer| {
      RepliesAccept(l.toServer[..l.taken]);
    }
    hide Replies;
    assert l.toClient[i] == Due(l)[i];
  }

  lemma ReceiveKeepsInv(s: State, c: Conn, eof: bool)
    requires Inv(s) && Enabled(s, Receive(c, eof))
    ensures Inv(Step(s, Receive(c, eof)))
  {
    assert LinkOk(s, c);
    if !eof {
      WrittenIsAccept(s.links[c], HandlerOf(s, c), s.links[c].got);
    }
    ClientStepKeepsInv(s, c, Received(s.links[c], eof));
  }

  lemma DecideKeepsInv(s: State, c: Conn)
    requires Inv(s) && Enabled(s, Decide(c))
    ensures Inv(Step(s, Decide(c)))
  {
    assert LinkOk(s, c);
    ClientStepKeepsInv(s, c, Decided(s.links[c]));
  }

  lemma ConnectKeepsInv(s: State, c: Conn, kind: Kind)
    requires Inv(s) && Enabled(s, Connect(c, kind))
    ensures Inv(Step(s, Connect(c, kind)))
  {
    var s' := Step(s, Connect(c, kind));
    assert ServedOk(s, c);
    forall d ensures LinkOk(s', d) {
      assert LinkOk(s, d);
    }
    forall pid ensures HandlerOk(s', pid) {
      assert HandlerOk(s, pid);
    }
    forall d ensures ServedOk(s', d) {
      assert ServedOk(s, d);
    }
  }

  lemma ParentStepKeepsInv(s: State, a: Action)
    requires Inv(s) && Enabled(s, a) && (a.Accept? || a.Close?)
    ensures Inv(Step(s, a))
  {
    var s' := Step(s, a);
    forall d ensures LinkOk(s', d) {
      assert LinkOk(s, d);
    }
    forall pid ensures HandlerOk(s', pid) {
      assert HandlerOk(s, pid);
    }
    forall d ensures ServedOk(s', d) {
      assert ServedOk(s, d);
    }
  }

  /** The new process serves the accepted connection, which no other process serves. */
  lemma ForkKeepsInv(s: State, pid: Pid)
    requires Inv(s) && Enabled(s, Fork(pid))
    ensures Inv(Step(s, Fork(pid)))
  {
    var s' := Step(s, Fork(pid));
    var c := s.parent.fds[s.parent.newsockfd];
    assert LinkOk(s, c);
    assert s.links[c].toServer[..0] == [];
    forall d ensures LinkOk(s', d) {
      assert LinkOk(s, d) && ServedOk(s, d);
    }
    forall p ensures HandlerOk(s', p) {
      assert HandlerOk(s, p);
    }
    forall d ensures ServedOk(s', d) {
      assert ServedOk(s, d);
    }
  }

  /** A serving process's own step changes its own connection and itself only. */
  lemma HandlerStepKeepsInv(s: State, pid: Pid, h': Handler, l': Link)
    requires Inv(s) && pid in s.handlers && s.handlers[pid].argsFd in s.handlers[pid].fds
    requires h'.argsFd == s.handlers[pid].argsFd && h'.fds == s.handlers[pid].fds
    requires ServedConn(h') in s.links && ClientOk(l') && RepliesOk(l', Some(h'))
    ensures Inv(WithHandler(WithLink(s, ServedConn(h'), l'), pid, h'))
  {
    var c := ServedConn(h');
    var s' := WithHandler(WithLink(s, c, l'), pid, h');
    assert HandlerOk(s, pid);
    forall d ensures LinkOk(s', d) {
      assert LinkOk(s, d) && ServedOk(s, d);
    }
    forall p ensures HandlerOk(s', p) {
      assert HandlerOk(s, p);
    }
    forall d ensures ServedOk(s', d) {
      assert ServedOk(s, d);
    }
  }

  lemma HandlerReadKeepsInv(s: State, pid: Pid, eof: bool)
    requires Inv(s) && Enabled(s, HandlerRead(pid, eof))
    ensures Inv(Step(s, HandlerRead(pid, eof)))
  {
    var h := s.handlers[pid];
    var c := ServedConn(h);
    var l := s.links[c];
    assert HandlerOk(s, pid) && LinkOk(s, c);
    if eof {
      HandlerStepKeepsInv(s, pid, h.(pc := Exited), l);
      assert WithLink(s, c, l) == s;
    } else {
      var m, l' := l.toServer[l.taken], l.(taken := l.taken + 1);
      assert l.toServer[..l.taken + 1][..l.taken] == l.toServer[..l.taken];
      assert Due(l') == Due(l) + if IsInit(m) then [Accepted(m)] else [];
      HandlerStepKeepsInv(s, pid, AfterRead(h, m), l');
    }
  }

  lemma HandlerWriteKeepsInv(s: State, pid: Pid, ok: bool)
    requires Inv(s) && Enabled(s, HandlerWrite(pid, ok))
    ensures Inv(Step(s, HandlerWrite(pid, ok)))
  {
    var h := s.handlers[pid];
    var c := ServedConn(h);
    var l := s.links[c];
    assert HandlerOk(s, pid) && LinkOk(s, c);
    if ok {
      HandlerStepKeepsInv(s, pid, h.(pc := Reading), l.(toClient := l.toClient + [h.message]));
    } else {
      assert Due(l)[..|Due(l)| - 1] == l.toClient;
      HandlerStepKeepsInv(s, pid, h.(pc := Exited), l);
      assert WithLink(s, c, l) == s;
    }
  }

  lemma StepKeepsInv(s: State, a: Action)
    requires Inv(s) && Enabled(s, a)
    ensures Inv(Step(s, a))
  {
    match a
    case Connect(c, kind) => ConnectKeepsInv(s, c, kind);
    case Send(c, m) => SendKeepsInv(s, c, m);
    case Receive(c, eof) => ReceiveKeepsInv(s, c, eof);
    case Decide(c) => DecideKeepsInv(s, c);
    case Accept(_, _) => ParentStepKeepsInv(s, a);
    case Close => ParentStepKeepsInv(s, a);
    case Fork(pid) => ForkKeepsInv(s, pid);
    case HandlerRead(pid, eof) => HandlerReadKeepsInv(s, pid, eof);
    case HandlerWrite(pid, ok) => HandlerWriteKeepsInv(s, pid, ok);
  }

  lemma {:induction false} RunKeepsInv(run: seq<State>, i: nat)
    requires IsRun(run) && i < |run|
    ensures Inv(run[i])
  {
    if i > 0 {
      RunKeepsInv(run, i - 1);
      assert StepAt(run, i - 1);
      var a :| Enabled(run[i - 1], a) && run[i] == Step(run[i - 1], a);
      StepKeepsInv(run[i - 1], a);
    }
  }

  // ---------- What the handshake guarantees ----------

  /**
    In every interleaving, a service that has started was accepted: the manager has read the INIT
    of its own service type from its own connection, and has written back that same message with
    only the signal changed.
   */
  lemma StartedMeansAccepted(run: seq<State>, i: nat, c: Conn)
    requires IsRun(run) && i < |run|
    requires c in run[i].links && run[i].links[c].kind.Is? && run[i].links[c].pc.Started?
    ensures var l := run[i].links[c];
      && l.toServer == [Hello(l.kind.service)] && l.taken == 1
      && l.toClient == [Accepted(Hello(l.kind.service))] && l.got == 1
      && l.toServer[0].processId == l.toClient[0].processId == (if l.kind.service.BackupService? then 0 else 1)
      && l.toServer[0].signal == SIGNAL_INIT && l.toClient[0].signal == SIGNAL_ACCEPT
      && l.toServer[0].text == l.toClient[0].text
      && c in run[i].servedBy
  {
    RunKeepsInv(run, i);
    var s := run[i];
    var l := s.links[c];
    assert LinkOk(s, c);
    OneHello(l.kind.service);
    assert l.toServer[..0] == [] && l.toServer[..1] == l.toServer;
  }

  /**
    In every interleaving, a service that has read and decided has started if and only if it got a
    reply, and has given up if and only if it read the end of the stream instead.
   */
  lemma DecidedByReply(run: seq<State>, i: nat, c: Conn)
    requires IsRun(run) && i < |run| && c in run[i].links && run[i].links[c].kind.Is?
    requires run[i].links[c].pc.Started? || run[i].links[c].pc.Finished?
    ensures run[i].links[c].pc.Started? <==> run[i].links[c].got == 1
    ensures run[i].links[c].pc.Finished? <==> run[i].links[c].got == 0
  {
    RunKeepsInv(run, i);
    assert LinkOk(run[i], c);
  }

  /** A service that waits for its reply can always read the end of the stream, and then gives up. */
  lemma EndOfStreamGivesUp(s: State, c: Conn)
    requires c in s.links && s.links[c].pc.ToRead?
    ensures Enabled(s, Receive(c, true)) && Enabled(Step(s, Receive(c, true)), Decide(c))
    ensures var t := Step(Step(s, Receive(c, true)), Decide(c));
      c in t.links && t.links[c] == s.links[c].(pc := Finished)
  {
    assert Step(s, Receive(c, true)).links[c] == s.links[c].(pc := Deciding(NoAnswer()));
  }

  ghost predicate CanRun(s: State, actions: seq<Action>)
    decreases |actions|
  {
    actions == [] || (Enabled(s, actions[0]) && CanRun(Step(s, actions[0]), actions[1..]))
  }

  ghost function After(s: State, actions: seq<Action>): State
    requires CanRun(s, actions)
    decreases |actions|
  {
    if actions == [] then s else After(Step(s, actions[0]), actions[1..])
  }

  lemma RunFirst(s: State, a: Action, rest: seq<Action>)
    requires Enabled(s, a) && CanRun(Step(s, a), rest)
    ensures CanRun(s, [a] + rest) && After(s, [a] + rest) == After(Step(s, a), rest)
  {
    assert ([a] + rest)[1..] == rest;
  }

  lemma RunNothing(s: State)
    ensures CanRun(s, []) && After(s, []) == s
  {
  }

  lemma RunFive(s: State, a: Action, b: Action, c: Action, d: Action, e: Action)
    requires Enabled(s, a)
    requires Enabled(Step(s, a), b)
    requires Enabled(Step(Step(s, a), b), c)
    requires Enabled(Step(Step(Step(s, a), b), c), d)
    requires Enabled(Step(Step(Step(Step(s, a), b), c), d), e)
    ensures CanRun(s, [a] + ([b] + ([c] + ([d] + [e]))))
    ensures After(s, [a] + ([b] + ([c] + ([d] + [e])))) == Step(Step(Step(Step(Step(s, a), b), c), d), e)
  {
    hide *;
    var s1 := Step(s, a);
    var s2 := Step(s1, b);
    var s3 := Step(s2, c);
    var s4 := Step(s3, d);
    RunNothing(Step(s4, e));
    RunFirst(s4, e, []);
    assert [e] + [] == [e];
    RunFirst(s3, d, [e]);
    RunFirst(s2, c, [d] + [e]);
    RunFirst(s1, b, [c] + ([d] + [e]));
    RunFirst(s, a, [b] + ([c] + ([d] + [e])));
  }

  /** The connection of service k after its INIT was read and answered, and its reply read. */
  function Answered(k: Service): Link {
    Link(Is(k), Started, [Hello(k)], 1, [Accepted(Hello(k))], 1)
  }

  /** The rest of a handshake, once a process serves the connection: ask, read, answer, read, decide. */
  function Exchange(c: Conn, pid: Pid, k: Service): seq<Action> {
    [Send(c, Hello(k))] + ([HandlerRead(pid, false)] + ([HandlerWrite(pid, true)] + ([Receive(c, false)] + [Decide(c)])))
  }

  lemma InitIsAnswered(s: State, c: Conn, pid: Pid, k: Service)
    requires c in s.links && s.links[c] == Link(Is(k), ToAsk, [], 0, [], 0)
    requires HandlerCan(s, pid, Reading) && ServedConn(s.handlers[pid]) == c
    ensures Enabled(s, Send(c, Hello(k)))
    ensures Enabled(Step(s, Send(c, Hello(k))), HandlerRead(pid, false))
    ensures var s2 := Step(Step(s, Send(c, Hello(k))), HandlerRead(pid, false));
      && Enabled(s2, HandlerWrite(pid, true))
      && c in Step(s2, HandlerWrite(pid, true)).links
      && Step(s2, HandlerWrite(pid, true)).links[c] == Link(Is(k), ToRead, [Hello(k)], 1, [Accepted(Hello(k))], 0)
      && Step(s2, HandlerWrite(pid, true)).parent == s.parent && Step(s2, HandlerWrite(pid, true)).waiting == s.waiting
  {
    var hello := Hello(k);
    var s1 := Step(s, Send(c, hello));
    assert s1.links[c] == Link(Is(k), ToRead, [hello], 0, [], 0) && HandlerCan(s1, pid, Reading);
    var s2 := Step(s1, HandlerRead(pid, false));
    assert s2.links[c] == Link(Is(k), ToRead, [hello], 1, [], 0);
    assert HandlerCan(s2, pid, Writing) && s2.handlers[pid].message == Accepted(hello);
  }

  lemma ReplyStarts(s: State, c: Conn, k: Service)
    requires c in s.links && s.links[c] == Link(Is(k), ToRead, [Hello(k)], 1, [Accepted(Hello(k))], 0)
    ensures Enabled(s, Receive(c, false)) && Enabled(Step(s, Receive(c, false)), Decide(c))
    ensures c in Step(Step(s, Receive(c, false)), Decide(c)).links
    ensures Step(Step(s, Receive(c, false)), Decide(c)).links[c] == Answered(k)
    ensures var t := Step(Step(s, Receive(c, false)), Decide(c)); t.parent == s.parent && t.waiting == s.waiting
  {
    assert Step(s, Receive(c, false)).links[c].pc == Deciding(Accepted(Hello(k)));
  }

  lemma ExchangeStarts(s: State, c: Conn, pid: Pid, k: Service)
    requires c in s.links && s.links[c] == Link(Is(k), ToAsk, [], 0, [], 0)
    requires HandlerCan(s, pid, Reading) && ServedConn(s.handlers[pid]) == c
    ensures CanRun(s, Exchange(c, pid, k))
    ensures c in After(s, Exchange(c, pid, k)).links && After(s, Exchange(c, pid, k)).links[c] == Answered(k)
    ensures After(s, Exchange(c, pid, k)).parent == s.parent && After(s, Exchange(c, pid, k)).waiting == s.waiting
  {
    ExchangeIs(c, pid, k);
    hide *;
    InitIsAnswered(s, c, pid, k);
    ReplyStarts(Step(Step(Step(s, Send(c, Hello(k))), HandlerRead(pid, false)), HandlerWrite(pid, true)), c, k);
    RunFive(s, Send(c, Hello(k)), HandlerRead(pid, false), HandlerWrite(pid, true), Receive(c, false), Decide(c));
  }

  lemma ExchangeIs(c: Conn, pid: Pid, k: Service)
    ensures Exchange(c, pid, k) ==
            [Send(c, Hello(k))] + ([HandlerRead(pid, false)] + ([HandlerWrite(pid, true)] + ([Receive(c, false)] + [Decide(c)])))
  {
  }

  /** An undisturbed handshake: the connection is accepted and a process forked for it, then the exchange. */
  function Handshaking(c: Conn, fd: Fd, pid: Pid, k: Service): seq<Action> {
    [Accept(c, fd)] + ([Fork(pid)] + ([Close] + Exchange(c, pid, k)))
  }

  /**
    From every reached state in which the manager accepts and a service waits, the service can get to
    start, and the manager then accepts again, with the descriptor free for the next connection.
   */
  lemma UndisturbedHandshakeStarts(run: seq<State>, i: nat, c: Conn, fd: Fd, pid: Pid, k: Service)
    requires IsRun(run) && i < |run| && run[i].parent.pc.Accepting?
    requires c in run[i].waiting && c in run[i].links && run[i].links[c].kind == Is(k) && run[i].links[c].pc.ToAsk?
    requires fd !in run[i].parent.fds && pid !in run[i].handlers
    ensures CanRun(run[i], Handshaking(c, fd, pid, k))
    ensures var t := After(run[i], Handshaking(c, fd, pid, k));
      && c in t.links && t.links[c] == Answered(k)
      && t.parent.pc.Accepting? && t.parent.fds == run[i].parent.fds && t.waiting == run[i].waiting - {c}
  {
    var s := run[i];
    RunKeepsInv(run, i);
    assert LinkOk(s, c);
    assert s.links[c] == Link(Is(k), ToAsk, [], 0, [], 0);
    var s1 := Step(s, Accept(c, fd));
    assert s1.parent == Parent(ToFork, fd, fd, s.parent.fds[fd := c]) && s1.links == s.links;
    var s2 := Step(s1, Fork(pid));
    assert s2.parent.pc.ToClose? && s2.links == s.links;
    assert s2.handlers[pid] == Handler(Reading, fd, s.parent.fds[fd := c], NoAnswer());
    var s3 := Step(s2, Close);
    assert s3.links == s.links && s3.handlers == s2.handlers && s3.waiting == s.waiting - {c};
    assert s3.parent.fds == s.parent.fds[fd := c] - {fd} == s.parent.fds && s3.parent.pc.Accepting?;
    assert Enabled(s, Accept(c, fd)) && Enabled(s1, Fork(pid)) && Enabled(s2, Close);
    assert HandlerCan(s3, pid, Reading) && ServedConn(s3.handlers[pid]) == c;
    hide Inv, IsRun, Step, Enabled, HandlerCan, Exchange;
    ExchangeStarts(s3, c, pid, k);
    RunFirst(s2, Close, Exchange(c, pid, k));
    RunFirst(s1, Fork(pid), [Close] + Exchange(c, pid, k));
    RunFirst(s, Accept(c, fd), [Fork(pid)] + ([Close] + Exchange(c, pid, k)));
  }

  lemma OneHello(k: Service)
    ensures Replies([]) == [] && Replies([Hello(k)]) == [Accepted(Hello(k))]
  {
    assert [Hello(k)][..0] == [];
  }

  lemma {:induction false} RepliesCount(ms: seq<Message>)
    ensures |Replies(ms)| == Inits(ms)
  {
    if ms != [] {
      RepliesCount(ms[..|ms| - 1]);
    }
  }

  /** Whoever the client is, replies never exceed the INITs read, and match them when none is pending. */
  lemma RepliesMatchInits(run: seq<State>, i: nat, c: Conn)
    requires IsRun(run) && i < |run| && c in run[i].links
    ensures var s, l := run[i], run[i].links[c];
      && l.taken <= |l.toServer|
      && l.toClient <= Replies(l.toServer[..l.taken])
      && |l.toClient| <= Inits(l.toServer[..l.taken]) <= |l.toClient| + 1
      && (c in s.servedBy && s.servedBy[c] in s.handlers && s.handlers[s.servedBy[c]].pc.Reading? ==>
            l.toClient == Replies(l.toServer[..l.taken]) && |l.toClient| == Inits(l.toServer[..l.taken]))
  {
    RunKeepsInv(run, i);
    assert LinkOk(run[i], c);
    var l := run[i].links[c];
    RepliesCount(l.toServer[..l.taken]);
    assert l.toServer[..0] == [];
  }

  /** The connection whose record an action may change. */
  function Touched(s: State, a: Action): Option<Conn>
    requires Enabled(s, a)
  {
    match a
    case Connect(c, _) => Some(c)
    case Send(c, _) => Some(c)
    case Receive(c, _) => Some(c)
    case Decide(c) => Some(c)
    case HandlerRead(pid, _) => Some(ServedConn(s.handlers[pid]))
    case HandlerWrite(pid, _) => Some(ServedConn(s.handlers[pid]))
    case _ => None
  }

  /**
    Connections never see each other's messages: a step leaves every connection but one alone, and
    two serving processes never share a connection, although the parent's argument struct and its
    descriptor numbers are reused.
   */
  lemma ConnectionsAreIsolated(run: seq<State>, i: nat, a: Action, d: Conn, p: Pid, q: Pid)
    requires IsRun(run) && i < |run| && Enabled(run[i], a)
    ensures d in run[i].links && Touched(run[i], a) != Some(d) ==>
              d in Step(run[i], a).links && Step(run[i], a).links[d] == run[i].links[d]
    ensures p in run[i].handlers && q in run[i].handlers && p != q ==>
              && run[i].handlers[p].argsFd in run[i].handlers[p].fds
              && run[i].handlers[q].argsFd in run[i].handlers[q].fds
              && ServedConn(run[i].handlers[p]) != ServedConn(run[i].handlers[q])
  {
    RunKeepsInv(run, i);
    assert HandlerOk(run[i], p) && HandlerOk(run[i], q);
  }
}
