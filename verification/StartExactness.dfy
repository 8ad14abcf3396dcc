/** When a completed start of the firewall service leaves exactly its own rules, flushes that were not spawned included. */
module StartExactness {
  import opened Wrappers
  import opened Iptables

  // ---------- The condition ----------

  /** The rule set that the compound flush of a start found, and whether that flush was spawned. */
  datatype Flushed = Flushed(ch: Chains, spawned: bool)

  /**
    A flush that runs clears everything if it finds both of the service's chains, and stops harmlessly
    if OUTPUT has no jump and UNTRUSTED no rule. One that was not spawned needs TRUSTED empty as well.
   */
  ghost predicate ClearsTheWay(f: Flushed) {
    OUTPUT in f.ch &&
    if f.spawned then Both(f.ch) || Quiet(f.ch)
    else Quiet(f.ch) && (TRUSTED in f.ch ==> f.ch[TRUSTED] == [])
  }

  /** What the flush of the latest start found. */
  ghost function LastFlush(s: State, events: seq<Event>): Option<Flushed> {
    if events == [] then None
    else
      var before, e := events[..|events| - 1], events[|events| - 1];
      var t := Run(s, before);
      if t.pc == FlushChains(true) && (e.Ran? || e.NotSpawned?) then Some(Flushed(t.ch, e.Ran?))
      else LastFlush(s, before)
  }

  /** One REJECT, one ACCEPT, and one OUTPUT jump, which is the last OUTPUT rule. */
  ghost predicate Exact(t: State) {
    Built(t, 1, REJECT_ALL, ACCEPT_ALL)
  }

  /** Past the flush of a start, and not on the way to the closing flush. */
  predicate SettingUp(pc: Pc) {
    match pc
    case DropTrusted(up) => up
    case DropUntrusted(up) => up
    case BlockReject(failed) => !failed
    case AcceptRule(failed) => !failed
    case Down => false
    case FlushChains(_) => false
    case _ => true
  }

  // ---------- Line by line ----------

  lemma FlushIff(s: State, e: Event)
    requires Base(s.ch) && s.pc == FlushChains(true) && (e.Ran? || e.NotSpawned?)
    ensures Stage(Step(s, e)) <==> ClearsTheWay(Flushed(s.ch, e.Ran?))
  {
    StepKeepsBase(s, e);
    StepEffect(s, e);
    FlushLineEffect(s.ch, 3);
    assert Step(s, e).pc == DropTrusted(true);
    hide ExecLine, Step, Base;
  }

  /** Deleting and creating the service's chains neither clears a rule set nor spoils it. */
  lemma DropIff(ch: Chains, c: Chain)
    requires Base(ch) && (c == TRUSTED || c == UNTRUSTED)
    ensures Cleared(Exec(ch, Delete(c))) <==> Cleared(ch)
  {
    ExecKeepsBase(ch, Delete(c));
    hide Base;
  }

  lemma NewIff(ch: Chains, c: Chain)
    requires Base(ch) && (c == TRUSTED || c == UNTRUSTED)
    ensures Cleared(Exec(ch, New(c))) <==> Cleared(ch)
  {
    ExecKeepsBase(ch, New(c));
    hide Base;
  }

  /** A line whose event keeps the start going has run, or may fail, or was no line at all. */
  lemma KeepsGoing(s: State, e: Event)
    requires SettingUp(Step(s, e).pc)
    ensures SettingUp(s.pc) || (s.pc == FlushChains(true) && (e.Ran? || e.NotSpawned?))
    ensures SettingUp(s.pc) ==>
              || Step(s, e) == Step(s, Ran)
              || (Step(s, e).ch == s.ch && Step(s, e).cfg == s.cfg
                  && (Step(s, e).pc == s.pc || s.pc == DropTrusted(true) || s.pc == DropUntrusted(true)))
  {
    hide LineAt, ExecLine;
  }

  /** The lines after the flush lead to the next program point's stage only from their own. */
  lemma LineIff(s: State, e: Event)
    requires Present(s) && SettingUp(s.pc) && SettingUp(Step(s, e).pc)
    ensures Stage(Step(s, e)) <==> Stage(s)
  {
    KeepsGoing(s, e);
    if Step(s, e) == Step(s, Ran) {
      hide Step, Stage, Present;
      if Stage(s) {
        RanKeepsStage(s);
      } else if Stage(Step(s, Ran)) {
        RanNeedsStage(s);
      }
    } else {
      hide Base, Quiet, Built;
    }
  }

  /** An append that leads to the contents of the next stage had the contents of this one to start from. */
  lemma JumpNeedsStage(s: State)
    requires Present(s) && s.pc == BlockJump && Stage(Step(s, Ran))
    ensures Stage(s)
  {
    AppendEffect(s);
    JumpsAppend(s.ch[OUTPUT], BlockJumpRule(s.cfg), UNTRUSTED);
    hide Step, Base, JumpsTo;
  }

  lemma AppendNeedsStage(s: State)
    requires Present(s) && Stage(Step(s, Ran))
    requires s.pc == BlockReject(false) || s.pc == AcceptJump || s.pc == AcceptRule(false)
    ensures Stage(s)
  {
    AppendEffect(s);
    hide Step, Base, JumpsTo;
  }

  lemma RanNeedsStage(s: State)
    requires Present(s) && SettingUp(s.pc) && Stage(Step(s, Ran))
    ensures Stage(s)
  {
    if s.pc.BlockJump? {
      hide Step, Stage, Present;
      JumpNeedsStage(s);
    } else if Appends(s.pc) {
      hide Step, Stage, Present;
      AppendNeedsStage(s);
    } else if s.pc.Running? {
      assert Step(s, Ran) == s;
    } else {
      StepEffect(s, Ran);
      assert Step(s, Ran) == State(Exec(s.ch, LineAt(s.pc, s.cfg)[0]), PcAfter(s.pc, true), s.cfg);
      hide Step, ExecLine, JumpsTo;
      if s.pc.NewTrusted? {
        NewTrustedNeedsStage(s.ch);
      } else {
        hide Base, Quiet, Cleared, Exec;
        if s.pc.NewUntrusted? {
          NewIff(s.ch, UNTRUSTED);
        } else {
          DropIff(s.ch, if s.pc.DropTrusted? then TRUSTED else UNTRUSTED);
        }
      }
    }
  }

  lemma NewTrustedNeedsStage(ch: Chains)
    requires Base(ch) && UNTRUSTED in ch
    requires JumpsTo(Exec(ch, New(TRUSTED))[OUTPUT], UNTRUSTED) == 0
    requires Exec(ch, New(TRUSTED))[UNTRUSTED] == [] && Exec(ch, New(TRUSTED))[TRUSTED] == []
    ensures Cleared(ch)
  {
  }

  // ---------- Over any run ----------

  /** In every run, a start is on the way to exactly its rules just if its flush cleared the way. */
  lemma {:induction false} OnTheWayIff(s: State, events: seq<Event>)
    requires Present(s) && !SettingUp(s.pc)
    ensures SettingUp(Run(s, events).pc) ==>
              LastFlush(s, events).Some? && (Stage(Run(s, events)) <==> ClearsTheWay(LastFlush(s, events).value))
  {
    if events != [] {
      var before, e := events[..|events| - 1], events[|events| - 1];
      var t := Run(s, before);
      OnTheWayIff(s, before);
      RunKeepsPresent(s, before);
      hide Present, ClearsTheWay, Stage;
      if SettingUp(Step(t, e).pc) {
        KeepsGoing(t, e);
        if SettingUp(t.pc) {
          LineIff(t, e);
        } else {
          PresentHasBase(t);
          FlushIff(t, e);
        }
      }
    }
  }

  lemma PresentHasBase(s: State)
    requires Present(s)
    ensures Base(s.ch)
  {
  }

  /**
    Over any starts, stops, crashes and failed spawns of any line, a completed start leaves exactly
    its own rules if and only if its flush found a rule set that it could clear.
   */
  lemma CompletedStartExactIff(s: State, events: seq<Event>)
    requires Base(s.ch) && s.pc.Down? && Run(s, events).pc.Running?
    ensures LastFlush(s, events).Some?
    ensures Exact(Run(s, events)) <==> ClearsTheWay(LastFlush(s, events).value)
  {
    hide Run, LastFlush, ClearsTheWay, Base;
    OnTheWayIff(s, events);
  }

  // ---------- One undisturbed start ----------

  /** What the lines of a start from the i-th up to the j-th, the flush not among them, do to the built-in chains. */
  ghost predicate Appended(s: State, t: State, i: nat, j: nat)
    requires Present(s)
  {
    && Present(t) && t.cfg == s.cfg
    && t.ch[OUTPUT] == s.ch[OUTPUT] + (if i <= 5 < j then [BlockJumpRule(s.cfg)] else [])
    && t.ch[INPUT] == s.ch[INPUT] + (if i <= 7 < j then [AcceptJumpRule(s.cfg)] else [])
  }

  lemma NothingAppended(s: State, i: nat)
    requires Present(s)
    ensures Appended(s, s, i, i)
  {
    assert s.ch[OUTPUT] + [] == s.ch[OUTPUT] && s.ch[INPUT] + [] == s.ch[INPUT];
  }

  lemma LineAppends(s: State, t: State, i: nat, j: nat)
    requires Present(s) && 1 <= i <= j < 9 && Appended(s, t, i, j) && t.pc == Starting(j)
    ensures Appended(s, Step(t, Ran), i, j + 1)
  {
    StepKeepsPresent(t, Ran);
    StepRespects(t, Ran);
    assert t.pc.BlockJump? <==> j == 5;
    assert t.pc.AcceptJump? <==> j == 7;
    assert !t.pc.FlushChains? && Step(t, Ran).cfg == t.cfg;
    hide Step, Present, BlockJumpRule, AcceptJumpRule;
  }

  lemma {:induction false} AdvanceAppends(s: State, i: nat, n: nat)
    requires Present(s) && 1 <= i && i + n <= 9 && s.pc == Starting(i)
    ensures Advance(s, n).pc == Starting(i + n) && Appended(s, Advance(s, n), i, i + n)
  {
    hide Step, Present, Appended;
    AdvancePc(s, n);
    PcSequence(i, n);
    if n == 0 {
      NothingAppended(s, i);
    } else {
      AdvanceAppends(s, i, n - 1);
      LineAppends(s, Advance(s, n - 1), i, i + n - 1);
    }
  }

  lemma {:induction false} AdvanceIff(s: State, i: nat, n: nat)
    requires Present(s) && 1 <= i && i + n <= 9 && s.pc == Starting(i)
    ensures Stage(Advance(s, n)) <==> Stage(s)
  {
    hide *;
    AdvanceStep(s, n);
    if n > 0 {
      AdvanceIff(s, i, n - 1);
      AdvanceAppends(s, i, n - 1);
      AdvanceAppends(s, i, n);
      AppendedPresent(s, Advance(s, n - 1), i, i + n - 1);
      StartingIsSettingUp(i + n - 1);
      StartingIsSettingUp(i + n);
      LineIff(Advance(s, n - 1), Ran);
    }
  }

  lemma AdvanceStep(s: State, n: nat)
    ensures Advance(s, n) == if n == 0 then s else Step(Advance(s, n - 1), Ran)
  {
  }

  lemma StartingIsSettingUp(i: nat)
    requires 1 <= i <= 9
    ensures SettingUp(Starting(i))
  {
  }

  lemma ExactIsStage(t: State)
    requires t.pc.Running?
    ensures Exact(t) <==> Stage(t)
  {
  }

  lemma FlushStep(s: State, e: Event)
    requires Base(s.ch) && s.pc == FlushChains(true) && (e.Ran? || e.NotSpawned?)
    ensures var t := Step(s, e);
      Present(t) && t.pc == Starting(1) && t.cfg == s.cfg && (e.NotSpawned? ==> t.ch == s.ch)
  {
    StepKeepsBase(s, e);
  }

  /** A start whose later lines are all spawned completes, exactly if its flush cleared the way. */
  lemma StartFrom(s: State, e: Event)
    requires Base(s.ch) && s.pc == FlushChains(true) && (e.Ran? || e.NotSpawned?)
    ensures var s1, t := Step(s, e), Run(s, [e] + Rans(8));
      && t.pc.Running? && t.cfg == s.cfg && Present(s1) && Appended(s1, t, 1, 9)
      && (Exact(t) <==> ClearsTheWay(Flushed(s.ch, e.Ran?)))
  {
    hide *;
    FlushStep(s, e);
    RunThenRans(s, e, 8);
    var s1 := Step(s, e);
    AdvanceAppends(s1, 1, 8);
    AdvanceIff(s1, 1, 8);
    FlushIff(s, e);
    LastIsRunning();
    ExactIsStage(Advance(s1, 8));
    AppendedPresent(s1, Advance(s1, 8), 1, 9);
  }

  lemma LastIsRunning()
    ensures Starting(9) == Running
  {
  }

  lemma AppendedPresent(s: State, t: State, i: nat, j: nat)
    requires Present(s) && Appended(s, t, i, j)
    ensures Present(t) && t.cfg == s.cfg
  {
  }

  /**
    A start whose flush was not spawned completes, and adds its OUTPUT jump to what OUTPUT held. It leaves
    exactly its own rules if and only if OUTPUT had no jump and neither of its chains had a rule.
   */
  lemma UnspawnedFlush(s: State)
    requires Base(s.ch) && s.pc == FlushChains(true)
    ensures var t := Run(s, [NotSpawned] + Rans(8));
      && t.pc.Running? && OUTPUT in t.ch && t.ch[OUTPUT] == s.ch[OUTPUT] + [BlockJumpRule(s.cfg)]
      && JumpsTo(t.ch[OUTPUT], UNTRUSTED) == JumpsTo(s.ch[OUTPUT], UNTRUSTED) + 1
      && (JumpsTo(t.ch[OUTPUT], UNTRUSTED) == 1 <==> JumpsTo(s.ch[OUTPUT], UNTRUSTED) == 0)
      && (Exact(t) <==> Quiet(s.ch) && (TRUSTED in s.ch ==> s.ch[TRUSTED] == []))
  {
    StartFrom(s, NotSpawned);
    FlushStep(s, NotSpawned);
    JumpRules(s.cfg);
    JumpsAppend(s.ch[OUTPUT], BlockJumpRule(s.cfg), UNTRUSTED);
    hide Run, Step, Exact, Quiet, BlockJumpRule, JumpsTo;
  }

  /**
    A start that runs all its lines completes. It leaves exactly its own rules if and only if its flush
    found both of its chains, or no OUTPUT jump and no rule in UNTRUSTED.
   */
  lemma SpawnedFlush(s: State)
    requires Base(s.ch) && s.pc == FlushChains(true)
    ensures var t := Run(s, [Ran] + Rans(8));
      && t.pc.Running?
      && (Exact(t) <==> Both(s.ch) || Quiet(s.ch))
  {
    StartFrom(s, Ran);
    hide Run, Step, Exact, Quiet;
  }

  // ---------- A flush that was not spawned is felt later ----------

  /** The flush of a first start on an untouched rule set does nothing, and clears the way. */
  lemma FirstFlush(s: State)
    requires Fresh(s)
    ensures var b := Step(s, Begin(s.cfg));
      var s1 := Step(b, Ran);
      && s1.ch == s.ch && s1.cfg == s.cfg && s1.pc == Starting(1) && Present(s1) && Stage(s1)
  {
    var b := Step(s, Begin(s.cfg));
    assert Base(b.ch) && b.pc == FlushChains(true) && b.ch == s.ch && b.cfg == s.cfg;
    assert ClearsTheWay(Flushed(b.ch, true));
    StepEffect(b, Ran);
    FlushLineEffect(b.ch, 3);
    hide Base, ExecLine, Stage, Present, ClearsTheWay, Step;
    FlushIff(b, Ran);
    FlushStep(b, Ran);
  }

  /** A first start on an untouched rule set, up to its INPUT append. */
  lemma FirstStartUpToInput(s: State)
    requires Fresh(s)
    ensures var t := Run(s, [Begin(s.cfg)] + ([Ran] + Rans(6)));
      && t.pc == AcceptJump && t.cfg == s.cfg && Built(t, 1, REJECT_ALL, [])
      && JumpsTo(t.ch[INPUT], TRUSTED) == 0
  {
    var b := Step(s, Begin(s.cfg));
    var s1 := Step(b, Ran);
    FirstFlush(s);
    assert INPUT in s.ch && JumpsTo(s.ch[INPUT], TRUSTED) == 0;
    assert Starting(7) == AcceptJump;
    hide Step, Advance, Fresh, Base, Run, Present, BlockJumpRule, JumpsTo;
    var t := Advance(s1, 6);
    AdvanceAppends(s1, 1, 6);
    AdvanceIff(s1, 1, 6);
    assert t.ch[INPUT] == s1.ch[INPUT] + [] == s.ch[INPUT];
    RunAppend(s, [Begin(s.cfg)], [Ran] + Rans(6));
    RunOne(s, Begin(s.cfg));
    RunThenRans(b, Ran, 6);
  }

  /** Killed there; a second start whose flush was not spawned is killed after the first deletion; a third begins. */
  function TwoCrashes(cfg: Config): seq<Event> {
    [Crashed(0)] + ([Begin(cfg)] + ([NotSpawned] + ([Ran] + ([Crashed(0)] + [Begin(cfg)]))))
  }

  lemma RunCons(s: State, e: Event, events: seq<Event>)
    ensures Run(s, [e] + events) == Run(Step(s, e), events)
  {
    hide Step;
    RunAppend(s, [e], events);
    RunOne(s, e);
  }

  lemma RunTwoCrashes(s: State)
    requires s.pc == AcceptJump
    ensures Run(s, TwoCrashes(s.cfg)) == s.(ch := Exec(s.ch, Delete(TRUSTED)), pc := FlushChains(true))
  {
    var begin := Begin(s.cfg);
    var down := s.(pc := Down);
    var up := s.(pc := FlushChains(true));
    assert Step(s, Crashed(0)) == down && Step(down, begin) == up;
    var drop := s.(pc := DropTrusted(true));
    assert Step(up, NotSpawned) == drop;
    var dropped := Step(drop, Ran);
    assert dropped == s.(ch := Exec(s.ch, Delete(TRUSTED)), pc := DropUntrusted(true)) by {
      StepEffect(drop, Ran);
    }
    var killed := dropped.(pc := Down);
    assert Step(dropped, Crashed(0)) == killed;
    assert Step(killed, begin) == killed.(pc := FlushChains(true));
    hide Step, Run, Exec;
    RunCons(s, Crashed(0), [begin] + ([NotSpawned] + ([Ran] + ([Crashed(0)] + [begin]))));
    RunCons(down, begin, [NotSpawned] + ([Ran] + ([Crashed(0)] + [begin])));
    RunCons(up, NotSpawned, [Ran] + ([Crashed(0)] + [begin]));
    RunCons(drop, Ran, [Crashed(0)] + [begin]);
    RunCons(dropped, Crashed(0), [begin]);
    RunOne(killed, begin);
  }

  /** The third start finds UNTRUSTED in use but no TRUSTED, so its own flush, which runs, stops at once. */
  lemma ThirdStart(s: State)
    requires Base(s.ch) && s.pc == FlushChains(true)
    requires TRUSTED !in s.ch && UNTRUSTED in s.ch && s.ch[UNTRUSTED] != []
    ensures var t := Run(s, [Ran] + Rans(8));
      && t.pc.Running? && OUTPUT in t.ch && !Exact(t)
      && JumpsTo(t.ch[OUTPUT], UNTRUSTED) == JumpsTo(s.ch[OUTPUT], UNTRUSTED) + 1
  {
    StartFrom(s, Ran);
    assert Step(s, Ran).ch == s.ch by {
      StepEffect(s, Ran);
      FlushLineEffect(s.ch, 3);
    }
    JumpRules(s.cfg);
    JumpsAppend(s.ch[OUTPUT], BlockJumpRule(s.cfg), UNTRUSTED);
    assert Step(s, Ran).cfg == s.cfg;
    hide Run, Step, Exact, BlockJumpRule, JumpsTo;
  }

  /** The three starts together; only the second one's flush is not spawned. */
  function LateHistory(cfg: Config): seq<Event> {
    ([Begin(cfg)] + ([Ran] + Rans(6))) + (TwoCrashes(cfg) + ([Ran] + Rans(8)))
  }

  /**
    A flush that was not spawned spoils even a later start all of whose lines are: from any untouched
    rule set, the history above ends with the service running and two OUTPUT jumps.
   */
  lemma MissedFlushIsFeltLater(s: State)
    requires Fresh(s)
    ensures var t := Run(s, LateHistory(s.cfg));
      && t.pc.Running? && OUTPUT in t.ch
      && JumpsTo(t.ch[OUTPUT], UNTRUSTED) == 2 && !Exact(t)
  {
    var first := [Begin(s.cfg)] + ([Ran] + Rans(6));
    FirstStartUpToInput(s);
    var t1 := Run(s, first);
    RunTwoCrashes(t1);
    DropUnreferenced(t1.ch);
    ExecKeepsBase(t1.ch, Delete(TRUSTED));
    var t2 := Run(t1, TwoCrashes(s.cfg));
    hide Run, Exec, Base, JumpsTo, Fresh;
    assert t2.ch == t1.ch - {TRUSTED} && t2.ch[OUTPUT] == t1.ch[OUTPUT];
    assert UNTRUSTED in t2.ch && t2.ch[UNTRUSTED] != [] && JumpsTo(t2.ch[OUTPUT], UNTRUSTED) == 1;
    hide *;
    RunAppend(s, first, TwoCrashes(s.cfg) + ([Ran] + Rans(8)));
    RunAppend(t1, TwoCrashes(s.cfg), [Ran] + Rans(8));
    ThirdStart(t2);
  }

  lemma DropUnreferenced(ch: Chains)
    requires Base(ch) && TRUSTED in ch && ch[TRUSTED] == [] && JumpsTo(ch[INPUT], TRUSTED) == 0
    ensures Exec(ch, Delete(TRUSTED)) == ch - {TRUSTED}
  {
  }

  // ---------- A clean shutdown ----------

  lemma DropReferenced(ch: Chains)
    requires INPUT in ch && JumpsTo(ch[INPUT], TRUSTED) > 0
    ensures Exec(ch, Delete(TRUSTED)) == ch
  {
  }

  lemma DropEmpty(ch: Chains)
    requires Base(ch) && ch[OUTPUT] == [] && UNTRUSTED in ch && ch[UNTRUSTED] == []
    ensures Exec(ch, Delete(UNTRUSTED)) == ch - {UNTRUSTED}
  {
  }

  lemma LineRuns(s: State, cmd: Command)
    requires LineAt(s.pc, s.cfg) == [cmd]
    ensures Step(s, Ran) == State(Exec(s.ch, cmd), PcAfter(s.pc, true), s.cfg)
  {
    ExecOne(s.ch, cmd);
  }

  lemma StopFlush(s: State)
    requires Present(s) && s.pc.Running?
    ensures var ch := s.ch[TRUSTED := []][UNTRUSTED := []][OUTPUT := []];
      && Step(Step(s, Stop), Ran) == State(ch, DropTrusted(false), s.cfg)
      && Base(ch) && JumpsTo(ch[INPUT], TRUSTED) > 0
  {
    var s1 := s.(pc := FlushChains(false));
    assert Step(s, Stop) == s1;
    StepEffect(s1, Ran);
    FlushLineEffect(s.ch, 3);
    FlushKeepsBase(s.ch, 3);
    assert Step(s1, Ran).pc == DropTrusted(false) && Step(s1, Ran).cfg == s.cfg;
    hide Step, ExecLine, Base, JumpsTo;
  }

  lemma StopDrops(ch: Chains, cfg: Config)
    requires Base(ch) && ch[OUTPUT] == [] && JumpsTo(ch[INPUT], TRUSTED) > 0
    requires UNTRUSTED in ch && ch[UNTRUSTED] == []
    ensures Step(State(ch, DropTrusted(false), cfg), Ran) == State(ch, DropUntrusted(false), cfg)
    ensures Step(State(ch, DropUntrusted(false), cfg), Ran) == State(ch - {UNTRUSTED}, Down, cfg)
  {
    LineRuns(State(ch, DropTrusted(false), cfg), Delete(TRUSTED));
    LineRuns(State(ch, DropUntrusted(false), cfg), Delete(UNTRUSTED));
    DropReferenced(ch);
    DropEmpty(ch);
    hide Step, Base, JumpsTo, Exec;
  }

  lemma EmptiedChains(ch: Chains)
    requires Both(ch) && OUTPUT in ch
    ensures var emptied := ch[TRUSTED := []][UNTRUSTED := []][OUTPUT := []];
      && emptied[OUTPUT] == [] && UNTRUSTED in emptied && emptied[UNTRUSTED] == []
      && emptied - {UNTRUSTED} == ch[OUTPUT := []][TRUSTED := []] - {UNTRUSTED}
  {
  }

  /**
    A clean shutdown whose lines all run empties OUTPUT and removes UNTRUSTED. TRUSTED is emptied but
    stays, because INPUT still jumps to it; INPUT and all other chains are as they were.
   */
  lemma CleanStop(s: State)
    requires Present(s) && s.pc.Running?
    ensures Run(s, [Stop] + Rans(3)) == State(s.ch[OUTPUT := []][TRUSTED := []] - {UNTRUSTED}, Down, s.cfg)
  {
    assert Both(s.ch) && OUTPUT in s.ch;
    hide *;
    var ch := s.ch[TRUSTED := []][UNTRUSTED := []][OUTPUT := []];
    StopFlush(s);
    EmptiedChains(s.ch);
    StopDrops(ch, s.cfg);
    RunThenRans(s, Stop, 3);
    AdvanceStep(Step(s, Stop), 3);
    AdvanceStep(Step(s, Stop), 2);
    AdvanceStep(Step(s, Stop), 1);
    AdvanceStep(Step(s, Stop), 0);
  }
}
