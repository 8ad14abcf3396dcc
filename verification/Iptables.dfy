/** The packet filter that the firewall service drives through shell commands. */
module Iptables {
  import opened Wrappers

  /** Two built-in chains, the service's own two, and anything else the administrator has. */
  datatype Chain = OUTPUT | INPUT | TRUSTED | UNTRUSTED | Other(name: string)

  /** An IPv4 address as a number, its first byte the most significant. */
  type Address = a: nat | a < 0x1_0000_0000

  datatype Match = Any | ToNet(net: Address, len: nat) | FromNet(iface: string, net: Address, len: nat)
  datatype Target = Accept | Reject | Jump(chain: Chain)
  datatype Rule = Rule(cond: Match, target: Target)

  type Chains = map<Chain, seq<Rule>>

  // ---------- Commands ----------

  datatype Command = Flush(chain: Chain) | New(chain: Chain) | Delete(chain: Chain) | Append(chain: Chain, rule: Rule)

  /** How many rules jump to chain c. */
  function JumpsTo(rules: seq<Rule>, c: Chain): nat {
    if rules == [] then 0
    else JumpsTo(rules[..|rules| - 1], c) + if rules[|rules| - 1].target == Jump(c) then 1 else 0
  }

  predicate Referenced(ch: Chains, c: Chain) {
    exists d :: d in ch && JumpsTo(ch[d], c) > 0
  }

  predicate Succeeds(ch: Chains, cmd: Command) {
    match cmd
    case Flush(c) => c in ch
    case New(c) => c !in ch
    case Delete(c) => c in ch && ch[c] == [] && !Referenced(ch, c)
    case Append(c, r) => c in ch && (r.target.Jump? ==> r.target.chain in ch)
  }

  /** A command that fails has no effect. */
  function Exec(ch: Chains, cmd: Command): Chains {
    if !Succeeds(ch, cmd) then ch
    else match cmd
      case Flush(c) => ch[c := []]
      case New(c) => ch[c := []]
      case Delete(c) => ch - {c}
      case Append(c, r) => ch[c := ch[c] + [r]]
  }

  /** One shell line: commands joined by `&&`, stopping at the first failure. */
  type Line = seq<Command>

  function ExecLine(ch: Chains, line: Line): Chains
    decreases |line|
  {
    if line == [] then ch
    else if !Succeeds(ch, line[0]) then ch
    else ExecLine(Exec(ch, line[0]), line[1..])
  }

  // ---------- Meaning of a rule set ----------

  datatype Packet = Packet(src: Address, dst: Address, iface: string)
  datatype Verdict = Accepted | Rejected

  /** The number without its last k bits. */
  function Shifted(x: nat, k: nat): nat {
    if k == 0 then x else Shifted(x, k - 1) / 2
  }

  function Bit(x: nat, k: nat): nat {
    Shifted(x, k) % 2
  }

  /** Membership in a prefix: nothing is left to tell the addresses apart once the other bits are shifted out. */
  predicate InPrefix(ip: Address, net: Address, len: nat) {
    len <= 32 && Shifted(ip, 32 - len) == Shifted(net, 32 - len)
  }

  function Power(k: nat): nat {
    if k == 0 then 1 else 2 * Power(k - 1)
  }

  lemma {:induction false} ShiftedSmall(x: nat, n: nat, k: nat)
    requires k <= n && x < Power(n)
    ensures Shifted(x, k) < Power(n - k)
  {
    if k > 0 {
      ShiftedSmall(x, n, k - 1);
    }
  }

  lemma Power32()
    ensures Power(32) == 0x1_0000_0000
  {
    assert Power(8) == 0x100;
    assert Power(16) == 0x1_0000;
    assert Power(24) == 0x100_0000;
  }

  lemma {:induction false} ShiftedBits(x: Address, y: Address, k: nat)
    requires k <= 32
    ensures Shifted(x, k) == Shifted(y, k) <==> forall j :: k <= j < 32 ==> Bit(x, j) == Bit(y, j)
    decreases 32 - k
  {
    if k == 32 {
      Power32();
      ShiftedSmall(x, 32, 32);
      ShiftedSmall(y, 32, 32);
    } else {
      ShiftedBits(x, y, k + 1);
      var a, b := Shifted(x, k), Shifted(y, k);
      assert Shifted(x, k + 1) == a / 2 && Shifted(y, k + 1) == b / 2;
      assert a == b <==> a / 2 == b / 2 && Bit(x, k) == Bit(y, k);
    }
  }

  /** An address is in a prefix exactly when its first `len` bits, most significant first, are those of the network. */
  lemma InPrefixBits(ip: Address, net: Address, len: nat)
    requires len <= 32
    ensures InPrefix(ip, net, len) <==> forall j :: 32 - len <= j < 32 ==> Bit(ip, j) == Bit(net, j)
  {
    ShiftedBits(ip, net, 32 - len);
  }

  predicate Matches(m: Match, p: Packet) {
    match m
    case Any => true
    case ToNet(net, len) => InPrefix(p.dst, net, len)
    case FromNet(iface, net, len) => p.iface == iface && InPrefix(p.src, net, len)
  }

  /** The first verdict that traversing `rules` gives; None falls to the policy. Jumps nest at most `depth` deep. */
  function Traverse(ch: Chains, rules: seq<Rule>, p: Packet, depth: nat): Option<Verdict>
    decreases depth, |rules|
  {
    if rules == [] then None
    else
      var here :=
        if !Matches(rules[0].cond, p) then None
        else match rules[0].target
          case Accept => Some(Accepted)
          case Reject => Some(Rejected)
          case Jump(c) => if c in ch && depth > 0 then Traverse(ch, ch[c], p, depth - 1) else None;
      if here.Some? then here else Traverse(ch, rules[1..], p, depth)
  }

  // ---------- The service's command sequence ----------

  datatype Config = Config(untrustedNet: Address, untrustedLen: nat, trustedNet: Address, trustedLen: nat, iface: string)

  function BlockJumpRule(cfg: Config): Rule {
    Rule(ToNet(cfg.untrustedNet, cfg.untrustedLen), Jump(UNTRUSTED))
  }

  function AcceptJumpRule(cfg: Config): Rule {
    Rule(FromNet(cfg.iface, cfg.trustedNet, cfg.trustedLen), Jump(TRUSTED))
  }

  /** The shell line the service is about to run; `up` tells a start's flush from a shutdown's. */
  datatype Pc =
    | Down
    | FlushChains(up: bool)
    | DropTrusted(up: bool)
    | DropUntrusted(up: bool)
    | NewUntrusted
    | NewTrusted
    | BlockJump
    | BlockReject(failed: bool)
    | AcceptJump
    | AcceptRule(failed: bool)
    | Running

  const FLUSH_LINE: Line := [Flush(TRUSTED), Flush(UNTRUSTED), Flush(OUTPUT)]

  function LineAt(pc: Pc, cfg: Config): Line {
    match pc
    case FlushChains(_) => FLUSH_LINE
    case DropTrusted(_) => [Delete(TRUSTED)]
    case DropUntrusted(_) => [Delete(UNTRUSTED)]
    case NewUntrusted => [New(UNTRUSTED)]
    case NewTrusted => [New(TRUSTED)]
    case BlockJump => [Append(OUTPUT, BlockJumpRule(cfg))]
    case BlockReject(_) => [Append(UNTRUSTED, Rule(Any, Reject))]
    case AcceptJump => [Append(INPUT, AcceptJumpRule(cfg))]
    case AcceptRule(_) => [Append(TRUSTED, Rule(Any, Accept))]
    case _ => []
  }

  /** Where control goes after the line; `spawned` says that `system` did not return a negative value. */
  function PcAfter(pc: Pc, spawned: bool): Pc {
    match pc
    case FlushChains(up) => DropTrusted(up)
    case DropTrusted(up) => DropUntrusted(up)
    case DropUntrusted(up) => if up then NewUntrusted else Down
    case NewUntrusted => if spawned then NewTrusted else FlushChains(false)
    case NewTrusted => if spawned then BlockJump else FlushChains(false)
    case BlockJump => BlockReject(!spawned)
    case BlockReject(failed) => if failed || !spawned then FlushChains(false) else AcceptJump
    case AcceptJump => AcceptRule(!spawned)
    case AcceptRule(failed) => if failed || !spawned then FlushChains(false) else Running
    case _ => pc
  }

  datatype State = State(ch: Chains, pc: Pc, cfg: Config)

  /**
    Begin starts the service, Stop is a clean shutdown, Ran and NotSpawned are the two outcomes of
    `system` on the current line, and Crashed(n) kills the service after n commands of that line.
   */
  datatype Event = Begin(cfg: Config) | Stop | Ran | NotSpawned | Crashed(n: nat)

  ghost function Step(s: State, e: Event): State {
    var line := LineAt(s.pc, s.cfg);
    match e
    case Begin(cfg) => if s.pc.Down? then s.(pc := FlushChains(true), cfg := cfg) else s
    case Stop => if s.pc.Running? then s.(pc := FlushChains(false)) else s
    case Ran => s.(ch := ExecLine(s.ch, line), pc := PcAfter(s.pc, true))
    case NotSpawned => s.(pc := PcAfter(s.pc, false))
    case Crashed(n) => s.(ch := ExecLine(s.ch, line[..if n < |line| then n else |line|]), pc := Down)
  }

  ghost function Run(s: State, events: seq<Event>): State {
    if events == [] then s else Step(Run(s, events[..|events| - 1]), events[|events| - 1])
  }

  /** The compound flush line is always spawned. */
  ghost predicate FlushSpawned(s: State, events: seq<Event>) {
    forall i :: 0 <= i < |events| ==> FlushSpawnedAt(s, events, i)
  }

  ghost predicate FlushSpawnedAt(s: State, events: seq<Event>, i: nat)
    requires i < |events|
  {
    events[i] == NotSpawned ==> !Run(s, events[..i]).pc.FlushChains?
  }

  // ---------- The invariant of every reachable rule set ----------

  /** The built-in chains exist, and only they refer to the service's chains. */
  ghost predicate Base(ch: Chains) {
    && OUTPUT in ch && INPUT in ch
    && (forall d :: d in ch && d != OUTPUT ==> JumpsTo(ch[d], UNTRUSTED) == 0)
    && (forall d :: d in ch && d != INPUT ==> JumpsTo(ch[d], TRUSTED) == 0)
  }

  ghost predicate Both(ch: Chains) {
    TRUSTED in ch && UNTRUSTED in ch
  }

  ghost predicate Quiet(ch: Chains)
    requires OUTPUT in ch
  {
    JumpsTo(ch[OUTPUT], UNTRUSTED) == 0 && (UNTRUSTED in ch ==> ch[UNTRUSTED] == [])
  }

  /** An OUTPUT jump or a non-empty UNTRUSTED implies that both chains exist. */
  ghost predicate Inv(ch: Chains) {
    Base(ch) && (Both(ch) || Quiet(ch))
  }

  ghost predicate Cleared(ch: Chains) {
    Base(ch) && Quiet(ch) && (TRUSTED in ch ==> ch[TRUSTED] == [])
  }

  /** The chains created for this start: both exist, with `jumps` OUTPUT jumps and the given contents. */
  ghost predicate Built(s: State, jumps: nat, untrusted: seq<Rule>, trusted: seq<Rule>) {
    && Base(s.ch) && Both(s.ch)
    && JumpsTo(s.ch[OUTPUT], UNTRUSTED) == jumps
    && (jumps > 0 ==> s.ch[OUTPUT] != [] && s.ch[OUTPUT][|s.ch[OUTPUT]| - 1] == BlockJumpRule(s.cfg))
    && s.ch[UNTRUSTED] == untrusted && s.ch[TRUSTED] == trusted
  }

  const REJECT_ALL := [Rule(Any, Reject)]
  const ACCEPT_ALL := [Rule(Any, Accept)]

  ghost predicate Stage(s: State) {
    match s.pc
    case Down => Inv(s.ch)
    case FlushChains(_) => Inv(s.ch)
    case DropTrusted(_) => Cleared(s.ch)
    case DropUntrusted(_) => Cleared(s.ch)
    case NewUntrusted => Cleared(s.ch)
    case NewTrusted => Cleared(s.ch) && UNTRUSTED in s.ch
    case BlockJump => Built(s, 0, [], [])
    case BlockReject(failed) => Built(s, if failed then 0 else 1, [], [])
    case AcceptJump => Built(s, 1, REJECT_ALL, [])
    case AcceptRule(_) => Built(s, 1, REJECT_ALL, [])
    case Running => Built(s, 1, REJECT_ALL, ACCEPT_ALL)
  }

  lemma JumpsAppend(rules: seq<Rule>, r: Rule, c: Chain)
    ensures JumpsTo(rules + [r], c) == JumpsTo(rules, c) + if r.target == Jump(c) then 1 else 0
  {
    assert (rules + [r])[..|rules|] == rules;
  }

  lemma ExecCons(ch: Chains, cmd: Command, rest: Line)
    ensures ExecLine(ch, [cmd] + rest) == if Succeeds(ch, cmd) then ExecLine(Exec(ch, cmd), rest) else ch
  {
    assert ([cmd] + rest)[1..] == rest;
  }

  lemma ExecOne(ch: Chains, cmd: Command)
    ensures ExecLine(ch, [cmd]) == Exec(ch, cmd)
  {
    ExecCons(ch, cmd, []);
    assert [cmd] + [] == [cmd];
  }

  /** The compound flush stopped after n commands: each chain is emptied only if those before it exist. */
  function FlushEffect(ch: Chains, n: nat): Chains {
    if n == 0 || TRUSTED !in ch then ch
    else if n == 1 || UNTRUSTED !in ch then ch[TRUSTED := []]
    else if n == 2 || OUTPUT !in ch then ch[TRUSTED := []][UNTRUSTED := []]
    else ch[TRUSTED := []][UNTRUSTED := []][OUTPUT := []]
  }

  lemma FlushLineEffect(ch: Chains, n: nat)
    requires n <= 3
    ensures ExecLine(ch, FLUSH_LINE[..n]) == FlushEffect(ch, n)
  {
    var t, u, o := Flush(TRUSTED), Flush(UNTRUSTED), Flush(OUTPUT);
    if n == 0 {
      assert FLUSH_LINE[..0] == [];
    } else if n == 1 {
      assert FLUSH_LINE[..1] == [t];
      ExecOne(ch, t);
    } else if n == 2 {
      assert FLUSH_LINE[..2] == [t] + [u];
      ExecCons(ch, t, [u]);
      ExecOne(Exec(ch, t), u);
    } else {
      assert FLUSH_LINE[..3] == [t] + ([u] + [o]);
      ExecCons(ch, t, [u] + [o]);
      ExecCons(Exec(ch, t), u, [o]);
      ExecOne(Exec(Exec(ch, t), u), o);
    }
  }

  /** The compound flush, stopped anywhere: a missing TRUSTED or UNTRUSTED stops it with nothing left to flush. */
  lemma FlushLine(ch: Chains, n: nat)
    requires Inv(ch) && n <= 3
    ensures Inv(ExecLine(ch, FLUSH_LINE[..n]))
    ensures n == 3 ==> Cleared(ExecLine(ch, FLUSH_LINE[..n]))
  {
    FlushLineEffect(ch, n);
  }

  /** After a flush, UNTRUSTED is empty and unreferenced, so its deletion succeeds; TRUSTED's may not. */
  lemma DropsKeepCleared(ch: Chains)
    requires Cleared(ch)
    ensures Cleared(Exec(ch, Delete(TRUSTED)))
    ensures Cleared(Exec(ch, Delete(UNTRUSTED))) && UNTRUSTED !in Exec(ch, Delete(UNTRUSTED))
  {
  }

  lemma NewKeepsCleared(ch: Chains, c: Chain)
    requires Cleared(ch) && (c == TRUSTED || c == UNTRUSTED)
    ensures Cleared(Exec(ch, New(c))) && c in Exec(ch, New(c))
  {
  }

  lemma BlockJumpStage(s: State)
    requires s.pc.BlockJump? && Stage(s)
    ensures Stage(Step(s, Ran))
  {
    ExecOne(s.ch, Append(OUTPUT, BlockJumpRule(s.cfg)));
    JumpsAppend(s.ch[OUTPUT], BlockJumpRule(s.cfg), UNTRUSTED);
    JumpsAppend(s.ch[OUTPUT], BlockJumpRule(s.cfg), TRUSTED);
  }

  lemma AcceptJumpStage(s: State)
    requires s.pc.AcceptJump? && Stage(s)
    ensures Stage(Step(s, Ran))
    ensures Step(s, Ran).ch == s.ch[INPUT := s.ch[INPUT] + [AcceptJumpRule(s.cfg)]]
  {
    ExecOne(s.ch, Append(INPUT, AcceptJumpRule(s.cfg)));
    JumpsAppend(s.ch[INPUT], AcceptJumpRule(s.cfg), UNTRUSTED);
    JumpsAppend(s.ch[INPUT], AcceptJumpRule(s.cfg), TRUSTED);
  }

  /** The terminal rules go into chains that are empty at that point. */
  lemma TerminalRuleStage(s: State)
    requires (s.pc.BlockReject? || s.pc.AcceptRule?) && Stage(s)
    ensures Stage(Step(s, Ran)) && Inv(Step(s, Ran).ch)
    ensures Step(s, Ran).ch[INPUT] == s.ch[INPUT] && Step(s, Ran).ch[OUTPUT] == s.ch[OUTPUT]
  {
    var c := if s.pc.BlockReject? then UNTRUSTED else TRUSTED;
    var r := if s.pc.BlockReject? then Rule(Any, Reject) else Rule(Any, Accept);
    ExecOne(s.ch, Append(c, r));
    JumpsAppend([], r, UNTRUSTED);
    JumpsAppend([], r, TRUSTED);
    assert [] + [r] == [r];
  }

  /** A line that runs to its end leads to the next program point's stage. */
  lemma RanKeepsStage(s: State)
    requires Stage(s)
    ensures Stage(Step(s, Ran))
  {
    match s.pc
    case FlushChains(_) =>
      var line := LineAt(s.pc, s.cfg);
      assert line[..3] == line;
      FlushLine(s.ch, 3);
    case DropTrusted(_) =>
      ExecOne(s.ch, Delete(TRUSTED));
      DropsKeepCleared(s.ch);
    case DropUntrusted(_) =>
      ExecOne(s.ch, Delete(UNTRUSTED));
      DropsKeepCleared(s.ch);
    case NewUntrusted =>
      ExecOne(s.ch, New(UNTRUSTED));
      NewKeepsCleared(s.ch, UNTRUSTED);
    case NewTrusted =>
      ExecOne(s.ch, New(TRUSTED));
      NewKeepsCleared(s.ch, TRUSTED);
    case BlockJump => BlockJumpStage(s);
    case AcceptJump => AcceptJumpStage(s);
    case BlockReject(_) => TerminalRuleStage(s);
    case AcceptRule(_) => TerminalRuleStage(s);
    case _ =>
  }

  lemma CrashKeepsInv(s: State, n: nat)
    requires Stage(s)
    ensures Inv(Step(s, Crashed(n)).ch)
  {
    var line := LineAt(s.pc, s.cfg);
    var m := if n < |line| then n else |line|;
    if s.pc.FlushChains? {
      FlushLine(s.ch, m);
    } else if m == 0 {
      assert line[..m] == [];
    } else {
      assert line[..m] == line;
      RanKeepsStage(s);
    }
  }

  lemma StepKeepsStage(s: State, e: Event)
    requires Stage(s) && (e == NotSpawned ==> !s.pc.FlushChains?)
    ensures Stage(Step(s, e)) && Inv(s.ch)
  {
    match e
    case Ran => RanKeepsStage(s);
    case Crashed(n) => CrashKeepsInv(s, n);
    case _ =>
  }

  /** The state before the first start: neither chain exists and nothing refers to them. */
  ghost predicate Fresh(s: State) {
    && s.pc.Down? && OUTPUT in s.ch && INPUT in s.ch
    && TRUSTED !in s.ch && UNTRUSTED !in s.ch
    && !Referenced(s.ch, TRUSTED) && !Referenced(s.ch, UNTRUSTED)
  }

  lemma PrefixSpawned(s: State, events: seq<Event>)
    requires events != [] && FlushSpawned(s, events)
    ensures FlushSpawned(s, events[..|events| - 1])
    ensures events[|events| - 1] == NotSpawned ==> !Run(s, events[..|events| - 1]).pc.FlushChains?
  {
    var n := |events| - 1;
    forall i | 0 <= i < n ensures FlushSpawnedAt(s, events[..n], i) {
      assert FlushSpawnedAt(s, events, i) && events[..n][..i] == events[..i];
    }
    assert FlushSpawnedAt(s, events, n);
  }

  lemma {:induction false} RunKeepsStage(s: State, events: seq<Event>)
    requires Fresh(s) && FlushSpawned(s, events)
    ensures Stage(Run(s, events))
  {
    if events != [] {
      var n := |events| - 1;
      PrefixSpawned(s, events);
      RunKeepsStage(s, events[..n]);
      StepKeepsStage(Run(s, events[..n]), events[n]);
    }
  }

  // ---------- What every run leaves behind ----------

  /** The service's chains that a program point can rely on, whatever was or was not spawned before it. */
  ghost predicate Present(s: State) {
    && Base(s.ch)
    && (match s.pc
        case NewTrusted => UNTRUSTED in s.ch
        case BlockJump => Both(s.ch)
        case BlockReject(failed) => Both(s.ch) && (failed || EndsWithJump(s))
        case AcceptJump => Both(s.ch) && EndsWithJump(s) && s.ch[UNTRUSTED] != []
        case AcceptRule(failed) =>
          Both(s.ch) && EndsWithJump(s) && s.ch[UNTRUSTED] != [] && (failed || JumpsTo(s.ch[INPUT], TRUSTED) > 0)
        case Running =>
          && Both(s.ch) && EndsWithJump(s) && s.ch[UNTRUSTED] != [] && s.ch[TRUSTED] != []
          && JumpsTo(s.ch[INPUT], TRUSTED) > 0
        case _ => true)
  }

  ghost predicate EndsWithJump(s: State) {
    OUTPUT in s.ch && s.ch[OUTPUT] != [] && s.ch[OUTPUT][|s.ch[OUTPUT]| - 1] == BlockJumpRule(s.cfg)
  }

  /** The jumps that the service appends stand where `Base` allows them. */
  lemma ExecKeepsBase(ch: Chains, cmd: Command)
    requires Base(ch)
    requires cmd.Append? ==> cmd.chain == OUTPUT || cmd.rule.target != Jump(UNTRUSTED)
    requires cmd.Append? ==> cmd.chain == INPUT || cmd.rule.target != Jump(TRUSTED)
    requires cmd.Delete? ==> cmd.chain == TRUSTED || cmd.chain == UNTRUSTED
    ensures Base(Exec(ch, cmd))
  {
    if cmd.Append? && Succeeds(ch, cmd) {
      JumpsAppend(ch[cmd.chain], cmd.rule, UNTRUSTED);
      JumpsAppend(ch[cmd.chain], cmd.rule, TRUSTED);
    }
  }

  lemma EmptyKeepsBase(ch: Chains, c: Chain)
    requires Base(ch) && c in ch
    ensures Base(ch[c := []])
  {
  }

  lemma FlushKeepsBase(ch: Chains, n: nat)
    requires Base(ch) && n <= 3
    ensures Base(ExecLine(ch, FLUSH_LINE[..n]))
  {
    FlushLineEffect(ch, n);
    hide ExecLine, JumpsTo;
    if n > 0 && TRUSTED in ch {
      EmptyKeepsBase(ch, TRUSTED);
      if n > 1 && UNTRUSTED in ch {
        EmptyKeepsBase(ch[TRUSTED := []], UNTRUSTED);
        EmptyKeepsBase(ch[TRUSTED := []][UNTRUSTED := []], OUTPUT);
      }
    }
  }

  /** The effect of an event on the rule set: a first part of the compound flush, one command, or nothing. */
  lemma StepEffect(s: State, e: Event)
    ensures Step(s, e).ch ==
            if (e.Ran? || (e.Crashed? && e.n > 0)) && LineAt(s.pc, s.cfg) != [] then
              (if s.pc.FlushChains? then ExecLine(s.ch, FLUSH_LINE[..if e.Crashed? && e.n < 3 then e.n else 3])
               else Exec(s.ch, LineAt(s.pc, s.cfg)[0]))
            else s.ch
  {
    var line := LineAt(s.pc, s.cfg);
    assert line[..|line|] == line;
    assert line[..0] == [];
    if line != [] && !s.pc.FlushChains? {
      assert line[..1] == line == [line[0]];
      ExecOne(s.ch, line[0]);
    }
  }

  lemma StepKeepsBase(s: State, e: Event)
    requires Base(s.ch)
    ensures Base(Step(s, e).ch)
  {
    StepEffect(s, e);
    hide Step, ExecLine, Base, Exec;
    if s.pc.FlushChains? {
      FlushKeepsBase(s.ch, if e.Crashed? && e.n < 3 then e.n else 3);
    } else if LineAt(s.pc, s.cfg) != [] {
      ExecKeepsBase(s.ch, LineAt(s.pc, s.cfg)[0]);
    }
  }

  predicate Appends(pc: Pc) {
    pc.BlockJump? || pc.BlockReject? || pc.AcceptJump? || pc.AcceptRule?
  }

  /** An append of the service never fails, and leaves one rule more. */
  lemma AppendEffect(s: State)
    requires Present(s) && Appends(s.pc)
    ensures var cmd := LineAt(s.pc, s.cfg)[0];
      && cmd.Append? && cmd.chain in s.ch
      && Step(s, Ran) == State(s.ch[cmd.chain := s.ch[cmd.chain] + [cmd.rule]], PcAfter(s.pc, true), s.cfg)
  {
    StepEffect(s, Ran);
    assert Step(s, Ran).pc == PcAfter(s.pc, true) && Step(s, Ran).cfg == s.cfg;
    assert OUTPUT in s.ch && INPUT in s.ch;
    hide ExecLine, Step, Base, EndsWithJump;
  }

  lemma AppendKeepsPresent(s: State)
    requires Present(s) && Appends(s.pc)
    ensures Present(Step(s, Ran))
  {
    StepKeepsBase(s, Ran);
    AppendEffect(s);
    assert OUTPUT in s.ch && INPUT in s.ch;
    var t := Step(s, Ran);
    hide Step, Base;
    if s.pc.BlockJump? {
      var rules := s.ch[OUTPUT] + [BlockJumpRule(s.cfg)];
      assert rules[|rules| - 1] == BlockJumpRule(s.cfg);
      assert t.ch[OUTPUT] == rules;
    } else if EndsWithJump(s) {
      assert t.ch[OUTPUT] == s.ch[OUTPUT];
      assert EndsWithJump(t);
    }
    JumpsAppend(s.ch[INPUT], AcceptJumpRule(s.cfg), TRUSTED);
    assert AcceptJumpRule(s.cfg).target == Jump(TRUSTED);
    hide EndsWithJump, BlockJumpRule, AcceptJumpRule, JumpsTo;
  }

  /** Both of the service's chains exist once a start's two creations have run. */
  lemma CreationKeepsPresent(s: State)
    requires Present(s) && (s.pc.NewUntrusted? || s.pc.NewTrusted?)
    ensures Present(Step(s, Ran))
  {
    StepKeepsBase(s, Ran);
    StepEffect(s, Ran);
    assert Step(s, Ran).pc == PcAfter(s.pc, true);
    hide Step, ExecLine, Base, EndsWithJump;
  }

  lemma RanKeepsPresent(s: State)
    requires Present(s)
    ensures Present(Step(s, Ran))
  {
    if Appends(s.pc) {
      AppendKeepsPresent(s);
    } else if s.pc.NewUntrusted? || s.pc.NewTrusted? {
      CreationKeepsPresent(s);
    } else if s.pc.Running? {
      assert Step(s, Ran) == s;
    } else {
      StepKeepsBase(s, Ran);
      assert Step(s, Ran).pc == PcAfter(s.pc, true);
      hide Step, Base;
    }
  }

  lemma StepKeepsPresent(s: State, e: Event)
    requires Present(s)
    ensures Present(Step(s, e))
  {
    match e
    case Ran => RanKeepsPresent(s);
    case Crashed(_) =>
      StepKeepsBase(s, e);
      assert Step(s, e).pc == Down;
    case _ =>
      assert Step(s, e).ch == s.ch;
      hide Base, LineAt;
  }

  lemma {:induction false} RunKeepsPresent(s: State, events: seq<Event>)
    requires Present(s)
    ensures Present(Run(s, events))
  {
    hide Present, Step;
    if events != [] {
      RunKeepsPresent(s, events[..|events| - 1]);
      StepKeepsPresent(Run(s, events[..|events| - 1]), events[|events| - 1]);
    }
  }

  /** The command of the line has been run, wherever the service was killed after it. */
  predicate Took(e: Event) {
    e.Ran? || (e.Crashed? && e.n > 0)
  }

  /** The INPUT jumps that this event adds: one when the append of a start has run. */
  function InputAdded(s: State, e: Event): seq<Rule> {
    if s.pc.AcceptJump? && Took(e) then [AcceptJumpRule(s.cfg)] else []
  }

  ghost function InputJumps(s: State, events: seq<Event>): seq<Rule> {
    if events == [] then []
    else
      var before := events[..|events| - 1];
      InputJumps(s, before) + InputAdded(Run(s, before), events[|events| - 1])
  }

  function OutputAdded(s: State, e: Event): seq<Rule> {
    if s.pc.BlockJump? && Took(e) then [BlockJumpRule(s.cfg)] else []
  }

  /** A compound flush empties OUTPUT only if it gets past both of the service's chains. */
  ghost predicate Wipes(s: State, e: Event) {
    s.pc.FlushChains? && Both(s.ch) && (e.Ran? || (e.Crashed? && e.n >= 3))
  }

  ghost predicate Wiped(s: State, events: seq<Event>) {
    events != [] &&
    var before := events[..|events| - 1];
    (Wiped(s, before) || Wipes(Run(s, before), events[|events| - 1]))
  }

  /** The OUTPUT jumps added since OUTPUT was last emptied. */
  ghost function OutputJumps(s: State, events: seq<Event>): seq<Rule> {
    if events == [] then []
    else
      var before, last := events[..|events| - 1], events[|events| - 1];
      (if Wipes(Run(s, before), last) then [] else OutputJumps(s, before)) + OutputAdded(Run(s, before), last)
  }

  /** INPUT has grown by `input`, OUTPUT by `output` after it was emptied or not, and other chains are as they were. */
  ghost predicate Respects(ch: Chains, ch': Chains, wiped: bool, output: seq<Rule>, input: seq<Rule>) {
    && OUTPUT in ch && OUTPUT in ch' && ch'[OUTPUT] == (if wiped then [] else ch[OUTPUT]) + output
    && INPUT in ch && INPUT in ch' && ch'[INPUT] == ch[INPUT] + input
    && (forall d: string :: (Other(d) in ch <==> Other(d) in ch') && (Other(d) in ch ==> ch'[Other(d)] == ch[Other(d)]))
  }

  lemma FlushRespects(ch: Chains, n: nat)
    requires OUTPUT in ch && INPUT in ch && n <= 3
    ensures Respects(ch, ExecLine(ch, FLUSH_LINE[..n]), Both(ch) && n == 3, [], [])
  {
    FlushLineEffect(ch, n);
    assert ch[INPUT] + [] == ch[INPUT] && ch[OUTPUT] + [] == ch[OUTPUT];
  }

  /** What one command other than those of the compound flush adds to the built-in chains. */
  lemma ExecRespects(ch: Chains, cmd: Command)
    requires OUTPUT in ch && INPUT in ch && !cmd.chain.Other?
    requires cmd.Flush? || cmd.Delete? ==> cmd.chain == TRUSTED || cmd.chain == UNTRUSTED
    ensures var added := if cmd.Append? && Succeeds(ch, cmd) then [cmd.rule] else [];
      Respects(ch, Exec(ch, cmd), false, if cmd.chain == OUTPUT then added else [], if cmd.chain == INPUT then added else [])
  {
    assert ch[INPUT] + [] == ch[INPUT] && ch[OUTPUT] + [] == ch[OUTPUT];
  }

  lemma StepRespects(s: State, e: Event)
    requires Present(s)
    ensures Respects(s.ch, Step(s, e).ch, Wipes(s, e), OutputAdded(s, e), InputAdded(s, e))
  {
    StepEffect(s, e);
    if s.pc.FlushChains? && Took(e) {
      hide ExecLine, Step, Respects;
      FlushRespects(s.ch, if e.Crashed? && e.n < 3 then e.n else 3);
    } else if LineAt(s.pc, s.cfg) != [] && Took(e) {
      hide ExecLine, Step, Respects, Exec, BlockJumpRule, AcceptJumpRule, Base;
      ExecRespects(s.ch, LineAt(s.pc, s.cfg)[0]);
      JumpRules(s.cfg);
    } else {
      hide ExecLine, Step;
      assert s.ch[INPUT] + [] == s.ch[INPUT] && s.ch[OUTPUT] + [] == s.ch[OUTPUT];
    }
  }

  lemma JumpRules(cfg: Config)
    ensures BlockJumpRule(cfg).target == Jump(UNTRUSTED) && AcceptJumpRule(cfg).target == Jump(TRUSTED)
  {
  }

  lemma RespectsTwice(a: Chains, b: Chains, c: Chains, w: bool, o: seq<Rule>, i: seq<Rule>,
                      w': bool, o': seq<Rule>, i': seq<Rule>)
    requires Respects(a, b, w, o, i) && Respects(b, c, w', o', i')
    ensures Respects(a, c, w || w', (if w' then [] else o) + o', i + i')
  {
    assert a[INPUT] + (i + i') == (a[INPUT] + i) + i';
    var kept := if w then [] else a[OUTPUT];
    assert kept + (o + o') == (kept + o) + o';
    assert [] + ([] + o') == [] + o';
  }

  /** Over any run, what is in OUTPUT and INPUT is what was there, if it was not flushed, and the recorded jumps. */
  lemma {:induction false} RunRespects(s: State, events: seq<Event>)
    requires Present(s)
    ensures Respects(s.ch, Run(s, events).ch, Wiped(s, events), OutputJumps(s, events), InputJumps(s, events))
  {
    if events == [] {
      assert s.ch[INPUT] + [] == s.ch[INPUT] && s.ch[OUTPUT] + [] == s.ch[OUTPUT];
    } else {
      var before, e := events[..|events| - 1], events[|events| - 1];
      var t := Run(s, before);
      RunRespects(s, before);
      RunKeepsPresent(s, before);
      StepRespects(t, e);
      hide Present, Respects, Step, Wipes, InputAdded, OutputAdded;
      RespectsTwice(s.ch, t.ch, Step(t, e).ch, Wiped(s, before), OutputJumps(s, before), InputJumps(s, before),
                    Wipes(t, e), OutputAdded(t, e), InputAdded(t, e));
    }
  }

  // ---------- Completed starts ----------

  lemma {:induction false} OutputJumpsAreOurs(s: State, events: seq<Event>)
    ensures forall i :: 0 <= i < |OutputJumps(s, events)| ==> OutputJumps(s, events)[i].target == Jump(UNTRUSTED)
  {
    if events != [] {
      OutputJumpsAreOurs(s, events[..|events| - 1]);
    }
  }

  lemma {:induction false} JumpsOfOurs(rules: seq<Rule>, ours: seq<Rule>)
    requires forall i :: 0 <= i < |ours| ==> ours[i].target == Jump(UNTRUSTED)
    ensures JumpsTo(rules + ours, UNTRUSTED) == JumpsTo(rules, UNTRUSTED) + |ours|
  {
    if ours == [] {
      assert rules + ours == rules;
    } else {
      var n := |ours| - 1;
      JumpsOfOurs(rules, ours[..n]);
      assert rules + ours == (rules + ours[..n]) + [ours[n]];
      JumpsAppend(rules + ours[..n], ours[n], UNTRUSTED);
    }
  }

  lemma OneJumpLeft(kept: seq<Rule>, ours: seq<Rule>, last: Rule)
    requires forall i :: 0 <= i < |ours| ==> ours[i].target == Jump(UNTRUSTED)
    requires JumpsTo(kept, UNTRUSTED) == 0 && JumpsTo(kept + ours, UNTRUSTED) == 1
    requires kept + ours != [] && (kept + ours)[|kept + ours| - 1] == last
    ensures ours == [last]
  {
    JumpsOfOurs(kept, ours);
    assert (kept + ours)[|kept + ours| - 1] == ours[0];
  }

  /**
    After any starts, clean stops, crashes at any command boundary and failed spawns of any line but
    the compound flush, a completed start leaves exactly its own rules. OUTPUT holds its jump alone,
    or after what the administrator had there if no flush has got past the service's chains. INPUT
    has in addition one jump for every earlier start that got as far as its append; nothing else of
    INPUT or of the administrator's chains has changed.
   */
  lemma {:induction false} CompletedStart(s: State, events: seq<Event>)
    requires Fresh(s) && FlushSpawned(s, events)
    ensures var t := Run(s, events);
      && Inv(t.ch)
      && Respects(s.ch, t.ch, Wiped(s, events), OutputJumps(s, events), InputJumps(s, events))
      && (t.pc.Running? ==>
            && Both(t.ch)
            && t.ch[UNTRUSTED] == REJECT_ALL && t.ch[TRUSTED] == ACCEPT_ALL
            && JumpsTo(t.ch[OUTPUT], UNTRUSTED) == 1
            && t.ch[OUTPUT] == (if Wiped(s, events) then [] else s.ch[OUTPUT]) + [BlockJumpRule(t.cfg)])
  {
    var t := Run(s, events);
    FreshIsPresent(s);
    FreshHasNoJump(s);
    hide *;
    RunKeepsStage(s, events);
    RunRespects(s, events);
    StageHasInv(t);
    OutputJumpsAreOurs(s, events);
    if t.pc.Running? {
      RunningOutput(s, t, Wiped(s, events), OutputJumps(s, events), InputJumps(s, events));
    }
  }

  lemma StageHasInv(s: State)
    requires Stage(s)
    ensures Inv(s.ch)
  {
    StepKeepsStage(s, Stop);
  }

  lemma FreshHasNoJump(s: State)
    requires Fresh(s)
    ensures OUTPUT in s.ch && JumpsTo(s.ch[OUTPUT], UNTRUSTED) == 0
  {
  }

  lemma RunningOutput(s: State, t: State, wiped: bool, output: seq<Rule>, input: seq<Rule>)
    requires Stage(t) && t.pc.Running? && Respects(s.ch, t.ch, wiped, output, input)
    requires forall i :: 0 <= i < |output| ==> output[i].target == Jump(UNTRUSTED)
    requires OUTPUT in s.ch && JumpsTo(s.ch[OUTPUT], UNTRUSTED) == 0
    ensures Both(t.ch) && t.ch[UNTRUSTED] == REJECT_ALL && t.ch[TRUSTED] == ACCEPT_ALL
    ensures OUTPUT in t.ch && JumpsTo(t.ch[OUTPUT], UNTRUSTED) == 1
    ensures t.ch[OUTPUT] == (if wiped then [] else s.ch[OUTPUT]) + [BlockJumpRule(t.cfg)]
  {
    assert JumpsTo([], UNTRUSTED) == 0;
    hide Base, JumpsTo, BlockJumpRule;
    OneJumpLeft(if wiped then [] else s.ch[OUTPUT], output, BlockJumpRule(t.cfg));
  }

  // ---------- The verdicts ----------

  /** All starts use one configuration. */
  ghost predicate OneConfig(events: seq<Event>, cfg: Config) {
    forall i :: 0 <= i < |events| && events[i].Begin? ==> events[i].cfg == cfg
  }

  predicate Only(rules: seq<Rule>, r: Rule) {
    forall i :: 0 <= i < |rules| ==> rules[i] == r
  }

  lemma OnlyAppend(a: seq<Rule>, b: seq<Rule>, r: Rule)
    requires Only(a, r) && Only(b, r)
    ensures Only(a + b, r)
  {
  }

  lemma StepConfig(s: State, e: Event)
    ensures Step(s, e).cfg == if e.Begin? && s.pc.Down? then e.cfg else s.cfg
    ensures Only(InputAdded(s, e), AcceptJumpRule(s.cfg)) && Only(OutputAdded(s, e), BlockJumpRule(s.cfg))
  {
    hide LineAt, AcceptJumpRule, BlockJumpRule;
  }

  lemma {:induction false} ConfigStays(s: State, events: seq<Event>, cfg: Config)
    requires s.cfg == cfg && OneConfig(events, cfg)
    ensures Run(s, events).cfg == cfg
    ensures Only(InputJumps(s, events), AcceptJumpRule(cfg)) && Only(OutputJumps(s, events), BlockJumpRule(cfg))
  {
    if events != [] {
      var before, e := events[..|events| - 1], events[|events| - 1];
      assert forall i :: 0 <= i < |before| ==> before[i] == events[i];
      ConfigStays(s, before, cfg);
      var t := Run(s, before);
      StepConfig(t, e);
      assert Only([], BlockJumpRule(cfg));
      hide Only, Wipes, Step, InputAdded, OutputAdded, AcceptJumpRule, BlockJumpRule;
      OnlyAppend(InputJumps(s, before), InputAdded(t, e), AcceptJumpRule(cfg));
      OnlyAppend(if Wipes(t, e) then [] else OutputJumps(s, before), OutputAdded(t, e), BlockJumpRule(cfg));
    }
  }

  /** The service's chains hold nothing but copies of its terminal rules. */
  ghost predicate OwnRules(ch: Chains) {
    && (UNTRUSTED in ch ==> Only(ch[UNTRUSTED], Rule(Any, Reject)))
    && (TRUSTED in ch ==> Only(ch[TRUSTED], Rule(Any, Accept)))
  }

  lemma StepKeepsOwnRules(s: State, e: Event)
    requires OwnRules(s.ch)
    ensures OwnRules(Step(s, e).ch)
  {
    StepEffect(s, e);
    hide ExecLine, Step;
    FlushLineEffect(s.ch, if e.Crashed? && e.n < 3 then e.n else 3);
  }

  lemma {:induction false} RunKeepsOwnRules(s: State, events: seq<Event>)
    requires OwnRules(s.ch)
    ensures OwnRules(Run(s, events).ch)
  {
    hide OwnRules, Step;
    if events != [] {
      RunKeepsOwnRules(s, events[..|events| - 1]);
      StepKeepsOwnRules(Run(s, events[..|events| - 1]), events[|events| - 1]);
    }
  }

  /** A jump repeated any number of times decides as a single one does. */
  lemma {:induction false} RepeatedJump(ch: Chains, rules: seq<Rule>, r: Rule, p: Packet, depth: nat)
    requires rules != [] && Only(rules, r)
    ensures Traverse(ch, rules, p, depth) == Traverse(ch, [r], p, depth)
  {
    assert [r][1..] == [];
    if |rules| > 1 {
      RepeatedJump(ch, rules[1..], r, p, depth);
    } else {
      assert rules == [r];
    }
  }

  lemma TerminalChain(ch: Chains, t: Target, p: Packet, depth: nat)
    requires t.Accept? || t.Reject?
    ensures Traverse(ch, [Rule(Any, t)], p, depth) == Some(if t.Accept? then Accepted else Rejected)
  {
  }

  /** Copies of a jump to a chain of copies of one unconditional rule decide exactly the packets the jump matches. */
  lemma JumpsToTerminal(ch: Chains, rules: seq<Rule>, m: Match, c: Chain, t: Target, p: Packet, depth: nat)
    requires rules != [] && Only(rules, Rule(m, Jump(c)))
    requires c in ch && ch[c] != [] && Only(ch[c], Rule(Any, t)) && (t.Accept? || t.Reject?) && depth > 0
    ensures Traverse(ch, rules, p, depth) ==
            if Matches(m, p) then Some(if t.Accept? then Accepted else Rejected) else None
  {
    RepeatedJump(ch, rules, Rule(m, Jump(c)), p, depth);
    RepeatedJump(ch, ch[c], Rule(Any, t), p, depth - 1);
    TerminalChain(ch, t, p, depth - 1);
    assert [Rule(m, Jump(c))][1..] == [];
  }

  /** Every rule in the four chains is the service's own one for that chain, and none of the chains is empty. */
  ghost predicate OwnRulesOnly(ch: Chains, cfg: Config) {
    && OUTPUT in ch && ch[OUTPUT] != [] && Only(ch[OUTPUT], BlockJumpRule(cfg))
    && INPUT in ch && ch[INPUT] != [] && Only(ch[INPUT], AcceptJumpRule(cfg))
    && UNTRUSTED in ch && ch[UNTRUSTED] != [] && Only(ch[UNTRUSTED], Rule(Any, Reject))
    && TRUSTED in ch && ch[TRUSTED] != [] && Only(ch[TRUSTED], Rule(Any, Accept))
  }

  lemma GrownFromNothing(a: Chains, b: Chains, wiped: bool, output: seq<Rule>, input: seq<Rule>)
    requires Respects(a, b, wiped, output, input) && a[OUTPUT] == [] && a[INPUT] == []
    ensures OUTPUT in b && INPUT in b && b[OUTPUT] == output && b[INPUT] == input
  {
  }

  lemma RunningIsNonEmpty(t: State, cfg: Config)
    requires Present(t) && t.pc.Running? && OwnRules(t.ch)
    requires OUTPUT in t.ch && Only(t.ch[OUTPUT], BlockJumpRule(cfg))
    requires INPUT in t.ch && Only(t.ch[INPUT], AcceptJumpRule(cfg))
    ensures OwnRulesOnly(t.ch, cfg)
  {
    hide Base, Only, BlockJumpRule, AcceptJumpRule;
  }

  lemma FreshIsPresent(s: State)
    requires Fresh(s)
    ensures Present(s) && OwnRules(s.ch)
  {
  }

  lemma RunningHasOwnRules(s: State, events: seq<Event>)
    requires Fresh(s) && OneConfig(events, s.cfg)
    requires s.ch[OUTPUT] == [] && s.ch[INPUT] == []
    requires Run(s, events).pc.Running?
    ensures OwnRulesOnly(Run(s, events).ch, s.cfg)
  {
    FreshIsPresent(s);
    hide *;
    RunKeepsPresent(s, events);
    RunRespects(s, events);
    RunKeepsOwnRules(s, events);
    ConfigStays(s, events, s.cfg);
    GrownFromNothing(s.ch, Run(s, events).ch, Wiped(s, events), OutputJumps(s, events), InputJumps(s, events));
    RunningIsNonEmpty(Run(s, events), s.cfg);
  }

  lemma DecidedByOwnRules(ch: Chains, cfg: Config, p: Packet, depth: nat)
    requires OwnRulesOnly(ch, cfg) && depth > 0
    ensures OUTPUT in ch && INPUT in ch
    ensures Traverse(ch, ch[OUTPUT], p, depth) ==
            (if InPrefix(p.dst, cfg.untrustedNet, cfg.untrustedLen) then Some(Rejected) else None)
    ensures Traverse(ch, ch[INPUT], p, depth) ==
            (if p.iface == cfg.iface && InPrefix(p.src, cfg.trustedNet, cfg.trustedLen) then Some(Accepted) else None)
  {
    hide Traverse, Only, InPrefix;
    JumpsToTerminal(ch, ch[OUTPUT], BlockJumpRule(cfg).cond, UNTRUSTED, Reject, p, depth);
    JumpsToTerminal(ch, ch[INPUT], AcceptJumpRule(cfg).cond, TRUSTED, Accept, p, depth);
  }

  /**
    With OUTPUT and INPUT initially empty and one configuration, the verdicts after a completed start
    do not depend on what happened before, not even on flushes that were not spawned: outgoing packets
    to the untrusted network are rejected, incoming ones from the trusted network on the interface are
    accepted, all others fall to policy.
   */
  lemma VerdictsAfterCompletedStart(s: State, events: seq<Event>, p: Packet, depth: nat)
    requires Fresh(s) && OneConfig(events, s.cfg)
    requires s.ch[OUTPUT] == [] && s.ch[INPUT] == []
    requires Run(s, events).pc.Running? && depth > 0
    ensures var ch, cfg := Run(s, events).ch, s.cfg;
      && OUTPUT in ch && INPUT in ch
      && Traverse(ch, ch[OUTPUT], p, depth) ==
           (if InPrefix(p.dst, cfg.untrustedNet, cfg.untrustedLen) then Some(Rejected) else None)
      && Traverse(ch, ch[INPUT], p, depth) ==
           (if p.iface == cfg.iface && InPrefix(p.src, cfg.trustedNet, cfg.trustedLen) then Some(Accepted) else None)
  {
    hide *;
    RunningHasOwnRules(s, events);
    DecidedByOwnRules(Run(s, events).ch, s.cfg, p, depth);
  }

  // ---------- A start that is not interrupted ----------

  function Rans(n: nat): seq<Event> {
    seq(n, _ => Ran)
  }

  lemma RunSnoc(s: State, events: seq<Event>, e: Event)
    ensures Run(s, events + [e]) == Step(Run(s, events), e)
  {
    assert (events + [e])[..|events|] == events;
  }

  lemma {:induction false} RunAppend(s: State, a: seq<Event>, b: seq<Event>)
    ensures Run(s, a + b) == Run(Run(s, a), b)
  {
    if b == [] {
      assert a + b == a;
    } else {
      var n := |b| - 1;
      RunAppend(s, a, b[..n]);
      assert a + b == (a + b[..n]) + [b[n]];
      RunSnoc(s, a + b[..n], b[n]);
    }
  }

  lemma RunOne(s: State, e: Event)
    ensures Run(s, [e]) == Step(s, e)
  {
    RunSnoc(s, [], e);
    assert [] + [e] == [e];
  }

  /** The state n completed lines later. */
  ghost function Advance(s: State, n: nat): State {
    if n == 0 then s else Step(Advance(s, n - 1), Ran)
  }

  lemma {:induction false} RunRans(s: State, n: nat)
    ensures Run(s, Rans(n)) == Advance(s, n)
  {
    if n > 0 {
      RunRans(s, n - 1);
      assert Rans(n) == Rans(n - 1) + [Ran];
      RunSnoc(s, Rans(n - 1), Ran);
    }
  }

  lemma RunThenRans(s: State, e: Event, n: nat)
    ensures Run(s, [e] + Rans(n)) == Advance(Step(s, e), n)
  {
    hide Step, Advance;
    RunAppend(s, [e], Rans(n));
    RunOne(s, e);
    RunRans(Step(s, e), n);
  }

  function PcAdvance(pc: Pc, n: nat): Pc {
    if n == 0 then pc else PcAfter(PcAdvance(pc, n - 1), true)
  }

  lemma {:induction false} AdvancePc(s: State, n: nat)
    ensures Advance(s, n).pc == PcAdvance(s.pc, n) && Advance(s, n).cfg == s.cfg
  {
    hide LineAt, ExecLine;
    if n > 0 {
      AdvancePc(s, n - 1);
    }
  }

  /** The lines of a start, from its flush on. */
  function Starting(i: nat): Pc
    requires i <= 9
  {
    if i < 5 then
      (if i == 0 then FlushChains(true) else if i == 1 then DropTrusted(true) else if i == 2 then DropUntrusted(true)
       else if i == 3 then NewUntrusted else NewTrusted)
    else
      (if i == 5 then BlockJump else if i == 6 then BlockReject(false) else if i == 7 then AcceptJump
       else if i == 8 then AcceptRule(false) else Running)
  }

  lemma {:induction false} PcSequence(i: nat, n: nat)
    requires i + n <= 9
    ensures PcAdvance(Starting(i), n) == Starting(i + n)
  {
    if n > 0 {
      PcSequence(i, n - 1);
    }
  }

  /** The history of a service that was started once, on an untouched rule set. */
  function SingleStart(cfg: Config): seq<Event> {
    [Begin(cfg)] + Rans(9)
  }

  lemma SingleStartCompletes(s: State)
    requires Fresh(s)
    ensures Run(s, SingleStart(s.cfg)).pc.Running?
    ensures FlushSpawned(s, SingleStart(s.cfg)) && OneConfig(SingleStart(s.cfg), s.cfg)
  {
    RunThenRans(s, Begin(s.cfg), 9);
    var t := Step(s, Begin(s.cfg));
    hide Run, LineAt, Advance, PcAdvance;
    assert t.pc == Starting(0);
    AdvancePc(t, 9);
    PcSequence(0, 9);
  }

  /** Whatever happened before a completed start, packets fare as after a single start. */
  lemma SameVerdictsAsSingleStart(s: State, events: seq<Event>, p: Packet, depth: nat)
    requires Fresh(s) && OneConfig(events, s.cfg)
    requires s.ch[OUTPUT] == [] && s.ch[INPUT] == []
    requires Run(s, events).pc.Running? && depth > 0
    ensures var once, t := Run(s, SingleStart(s.cfg)).ch, Run(s, events).ch;
      && OUTPUT in once && INPUT in once && OUTPUT in t && INPUT in t
      && Traverse(t, t[OUTPUT], p, depth) == Traverse(once, once[OUTPUT], p, depth)
      && Traverse(t, t[INPUT], p, depth) == Traverse(once, once[INPUT], p, depth)
  {
    SingleStartCompletes(s);
    VerdictsAfterCompletedStart(s, SingleStart(s.cfg), p, depth);
    VerdictsAfterCompletedStart(s, events, p, depth);
  }
}
