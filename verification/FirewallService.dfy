/**
  The firewall service's functions, which run shell lines one after the other. Each call of `System`
  checks that the line is the one the state machine of Iptables expects next, so every execution of
  these functions is one of its runs.
 */
module FirewallService {
  import opened Iptables
  import opened StartExactness

  class Firewall {
    var chains: Chains              // the kernel's rule set
    var attrs: Config
    const spawns: nat -> bool       // whether the n-th call of `system` can run its shell
    var calls: nat                  // how many calls of `system` there have been
    ghost const initial: State
    ghost var events: seq<Event>
    ghost var st: State

    ghost predicate Valid()
      reads this
    {
      && initial.pc.Down?
      && st == Run(initial, events)
      && st.ch == chains && st.cfg == attrs
    }

    constructor (chains: Chains, attrs: Config, spawns: nat -> bool)
      ensures Valid() && events == [] && initial == State(chains, Down, attrs)
      ensures this.spawns == spawns && calls == 0
    {
      this.chains := chains;
      this.attrs := attrs;
      this.spawns := spawns;
      calls := 0;
      initial := State(chains, Down, attrs);
      events := [];
      st := State(chains, Down, attrs);
    }

    ghost method Record(e: Event)
      requires st == Run(initial, events)
      modifies this`events, this`st
      ensures events == old(events) + [e] && st == Step(old(st), e) == Run(initial, events)
    {
      hide *;
      RunSnoc(initial, events, e);
      events := events + [e];
      st := Step(st, e);
    }

    /** What the n-th call of `system` does to the line it is given. */
    function Outcome(n: nat): Event {
      if spawns(n) then Ran else NotSpawned
    }

    /** `system(line) < 0`: whether the shell could not be run. Its exit status is not looked at. */
    method System(line: Line) returns (failed: bool)
      requires Valid() && line == LineAt(st.pc, st.cfg)
      modifies this
      ensures Valid() && attrs == old(attrs)
      ensures calls == old(calls) + 1 && failed == !spawns(old(calls))
      ensures events == old(events) + [Outcome(old(calls))]
      ensures st.pc == PcAfter(old(st.pc), !failed)
      ensures chains == if failed then old(chains) else ExecLine(old(chains), line)
    {
      failed := !spawns(calls);
      calls := calls + 1;
      if failed {
        Record(NotSpawned);
      } else {
        chains := ExecLine(chains, line);
        Record(Ran);
      }
    }

    method TrustedRulesInit() returns (failed: bool)
      requires Valid() && st.pc.NewTrusted?
      modifies this
      ensures Valid() && attrs == old(attrs)
      ensures calls == old(calls) + 1 && failed == !spawns(old(calls))
      ensures events == old(events) + [Outcome(old(calls))]
      ensures st.pc == if failed then FlushChains(false) else BlockJump
    {
      failed := System([New(TRUSTED)]);
    }

    method UntrustedRulesInit() returns (failed: bool)
      requires Valid() && st.pc.NewUntrusted?
      modifies this
      ensures Valid() && attrs == old(attrs)
      ensures calls == old(calls) + 1 && failed == !spawns(old(calls))
      ensures events == old(events) + [Outcome(old(calls))]
      ensures st.pc == if failed then FlushChains(false) else NewTrusted
    {
      failed := System([New(UNTRUSTED)]);
    }

    /** The second chain is not tried when the first could not be. */
    method CreateChains() returns (failed: bool)
      requires Valid() && st.pc.NewUntrusted?
      modifies this
      ensures Valid() && attrs == old(attrs)
      ensures !failed <==> spawns(old(calls)) && spawns(old(calls) + 1)
      ensures calls == old(calls) + if spawns(old(calls)) then 2 else 1
      ensures events == old(events) + Outcomes(old(calls), calls)
      ensures st.pc == if failed then FlushChains(false) else BlockJump
    {
      OutcomesUpTo2(calls);
      failed := UntrustedRulesInit();
      if !failed {
        failed := TrustedRulesInit();
      }
    }

    /** The outcomes of the calls from the m-th up to the n-th. */
    function Outcomes(m: nat, n: nat): (es: seq<Event>)
      requires m <= n
      ensures |es| == n - m && forall i :: 0 <= i < n - m ==> es[i] == Outcome(m + i)
    {
      seq(n - m, i requires 0 <= i < n - m => Outcome(m + i))
    }

    lemma OutcomesUpTo2(n: nat)
      ensures Outcomes(n, n + 1) == [Outcome(n)] && Outcomes(n, n + 2) == [Outcome(n)] + [Outcome(n + 1)]
    {
    }

    lemma OutcomesAppend(k: nat, m: nat, n: nat)
      requires k <= m <= n
      ensures Outcomes(k, n) == Outcomes(k, m) + Outcomes(m, n)
    {
    }

    method FlushTables(ghost up: bool) returns (failed: bool)
      requires Valid() && st.pc == FlushChains(up)
      modifies this
      ensures Valid() && attrs == old(attrs)
      ensures failed <==> !(spawns(old(calls)) && spawns(old(calls) + 1) && spawns(old(calls) + 2))
      ensures calls == old(calls) + 3 && events == old(events) + Outcomes(old(calls), calls)
      ensures st.pc == if up then NewUntrusted else Down
    {
      hide Valid, Run, Step, Outcome, Outcomes, ExecLine;
      OutcomesUpTo2(calls);
      OutcomesAppend(calls, calls + 2, calls + 3);
      OutcomesUpTo2(calls + 2);
      failed := System([Flush(TRUSTED), Flush(UNTRUSTED), Flush(OUTPUT)]);
      var trusted := System([Delete(TRUSTED)]);
      var untrusted := System([Delete(UNTRUSTED)]);
      failed := failed || trusted || untrusted;
    }

    /** Both appends are run, whatever the first one returned. */
    method AddBlockRule() returns (failed: bool)
      requires Valid() && st.pc.BlockJump?
      modifies this
      ensures Valid() && attrs == old(attrs)
      ensures !failed <==> spawns(old(calls)) && spawns(old(calls) + 1)
      ensures calls == old(calls) + 2 && events == old(events) + Outcomes(old(calls), calls)
      ensures st.pc == if failed then FlushChains(false) else AcceptJump
    {
      OutcomesUpTo2(calls);
      failed := System([Append(OUTPUT, BlockJumpRule(attrs))]);
      var post := System([Append(UNTRUSTED, Rule(Any, Reject))]);
      failed := failed || post;
    }

    method AddAcceptRule() returns (failed: bool)
      requires Valid() && st.pc.AcceptJump?
      modifies this
      ensures Valid() && attrs == old(attrs)
      ensures !failed <==> spawns(old(calls)) && spawns(old(calls) + 1)
      ensures calls == old(calls) + 2 && events == old(events) + Outcomes(old(calls), calls)
      ensures st.pc == if failed then FlushChains(false) else Running
    {
      OutcomesUpTo2(calls);
      failed := System([Append(INPUT, AcceptJumpRule(attrs))]);
      var post := System([Append(TRUSTED, Rule(Any, Accept))]);
      failed := failed || post;
    }

    /** The accept rule is not tried when the block rule failed. */
    method AddRules() returns (failed: bool)
      requires Valid() && st.pc.BlockJump?
      modifies this
      ensures Valid() && attrs == old(attrs)
      ensures !failed <==> AllSpawn(old(calls), old(calls) + 4)
      ensures old(calls) + 2 <= calls <= old(calls) + 4 && (!failed ==> calls == old(calls) + 4)
      ensures events == old(events) + Outcomes(old(calls), calls)
      ensures st.pc == if failed then FlushChains(false) else Running
    {
      hide *;
      ghost var n := calls;
      OutcomesAppend(n, n + 2, n + 4);
      FourSpawn(n);
      failed := AddBlockRule();
      if !failed {
        failed := AddAcceptRule();
      }
    }

    ghost predicate AllSpawn(m: nat, n: nat) {
      forall i: nat :: m <= i < n ==> spawns(i)
    }

    lemma FourSpawn(n: nat)
      ensures AllSpawn(n, n + 4) <==> spawns(n) && spawns(n + 1) && spawns(n + 2) && spawns(n + 3)
    {
    }

    /** UNTRUSTED rejects, TRUSTED accepts, and OUTPUT has exactly one jump, for the current configuration. */
    ghost predicate RulesInPlace()
      reads this
    {
      Exact(State(chains, Running, attrs))
    }

    /** The latest start's flush found a rule set that it could clear. */
    ghost predicate FlushCleared()
      reads this
    {
      LastFlush(initial, events).Some? && ClearsTheWay(LastFlush(initial, events).value)
    }

    lemma RunningHasRules()
      requires Valid() && st.pc.Running?
      ensures Fresh(initial) && FlushSpawned(initial, events) ==> RulesInPlace()
      ensures Base(initial.ch) ==> (RulesInPlace() <==> FlushCleared())
    {
      assert st == State(chains, Running, attrs);
      if Base(initial.ch) {
        CompletedStartExactIff(initial, events);
      }
      if Fresh(initial) && FlushSpawned(initial, events) {
        RunKeepsStage(initial, events);
      }
    }

    /** The chains and then the rules, each step only if the one before it could be run. */
    method SetUp() returns (failed: bool)
      requires Valid() && st.pc.NewUntrusted?
      modifies this
      ensures Valid() && attrs == old(attrs)
      ensures !failed <==> AllSpawn(old(calls), old(calls) + 6)
      ensures old(calls) < calls && (!failed ==> calls == old(calls) + 6)
      ensures events == old(events) + Outcomes(old(calls), calls)
      ensures st.pc == if failed then FlushChains(false) else Running
    {
      hide *;
      ghost var n := calls;
      SixSpawn(n);
      failed := CreateChains();
      if !failed {
        failed := AddRules();
        OutcomesAppend(n, n + 2, calls);
      }
    }

    /** A start begins by reading the configuration. */
    method Configure(cfg: Config)
      requires Valid() && st.pc.Down?
      modifies this`attrs, this`events, this`st
      ensures Valid() && attrs == cfg && st.pc == FlushChains(true)
      ensures events == old(events) + [Begin(cfg)]
    {
      attrs := cfg;
      Record(Begin(cfg));
    }

    lemma SixSpawn(n: nat)
      ensures AllSpawn(n, n + 6) <==> spawns(n) && spawns(n + 1) && AllSpawn(n + 2, n + 6)
    {
    }

    /**
      The rule set-up of a start. The service runs if and only if all six lines after the flush can be
      spawned; its events are then the flush's three and six lines that ran. Otherwise the set-up is
      undone by a closing flush.
     */
    method Start(cfg: Config) returns (running: bool)
      requires Valid() && st.pc.Down?
      modifies this
      ensures Valid() && attrs == cfg
      ensures running <==> AllSpawn(old(calls) + 3, old(calls) + 9)
      ensures st.pc == if running then Running else Down
      ensures old(calls) <= calls && events == old(events) + [Begin(cfg)] + Outcomes(old(calls), calls)
      ensures running ==> calls == old(calls) + 9 && Outcomes(old(calls) + 3, calls) == Rans(6)
      ensures running && Fresh(initial) && FlushSpawned(initial, events) ==> RulesInPlace()
      ensures running && Base(initial.ch) ==> (RulesInPlace() <==> FlushCleared())
    {
      hide *;
      ghost var n := calls;
      Configure(cfg);
      var _ := FlushTables(true);
      var failed := SetUp();
      OutcomesAppend(n, n + 3, calls);
      if failed {
        OutcomesAppend(n, calls, calls + 3);
        FreeAndExit();
        return false;
      }
      running := true;
      AllRan(n + 3, calls);
      RunningHasRules();
    }

    lemma AllRan(m: nat, n: nat)
      requires m <= n && AllSpawn(m, n)
      ensures Outcomes(m, n) == Rans(n - m)
    {
    }

    ghost method RecordStop()
      requires Valid() && st.pc.Running?
      modifies this`events, this`st
      ensures Valid() && events == old(events) + [Stop] && st.pc == FlushChains(false)
      ensures old(st) == Run(initial, old(events)) && chains == old(st).ch
    {
      Record(Stop);
    }

    lemma Stopped(es: seq<Event>, was: State)
      requires Valid() && was == Run(initial, es) && was.pc.Running? && Base(initial.ch)
      requires events == es + [Stop] + Rans(3)
      ensures chains == was.ch[OUTPUT := []][TRUSTED := []] - {UNTRUSTED}
    {
      RunKeepsPresent(initial, es);
      CleanStop(was);
      RunAppend(initial, es, [Stop] + Rans(3));
      assert events == es + ([Stop] + Rans(3));
    }

    /** The closing flush. After a clean stop that can run its lines, UNTRUSTED is gone and TRUSTED is empty. */
    method FreeAndExit()
      requires Valid() && (st.pc.Running? || st.pc == FlushChains(false))
      modifies this
      ensures Valid() && attrs == old(attrs) && st.pc.Down?
      ensures calls == old(calls) + 3
      ensures events == old(events) + (if old(st).pc.Running? then [Stop] else []) + Outcomes(old(calls), calls)
      ensures old(st).pc.Running? && Base(initial.ch) && AllSpawn(old(calls), calls) ==>
                chains == old(chains)[OUTPUT := []][TRUSTED := []] - {UNTRUSTED}
    {
      hide *;
      ghost var es, was, n := events, st, calls;
      if st.pc.Running? {
        RecordStop();
      }
      var _ := FlushTables(false);
      if was.pc.Running? && Base(initial.ch) && AllSpawn(n, calls) {
        AllRan(n, calls);
        Stopped(es, was);
      }
    }
  }
}
