/** The Linux kill switch of client/killswitch_linux.go: a private chain holding one drop rule, a jump
    to it at the top of OUTPUT, and a marker file that lets the next start-up undo a crashed run. */
module KillSwitch {
  import opened Basics
  import opened Ipv4
  import opened RuleList

  datatype Packet = Packet(dst: Addr, outIf: string)

  /** An OUTPUT rule: the jump to the private chain, or a rule of somebody else's. */
  datatype OutRule = Jump | User(id: nat)

  /** A rule of the private chain: a match on destination and negated output interface, or a leftover of
      an older program. */
  datatype ChainRule = Filter(dst: Prefix, notOut: string, target: Verdict) | Leftover(id: nat)

  /** Netfilter and the marker file. The private chain may not exist. */
  datatype Net = Net(output: seq<OutRule>, chain: Option<seq<ChainRule>>, marker: bool)

  type Others = (nat, Packet) -> Option<Verdict>

  const TUNNEL: string := "arena-tunnel"

  /** -d 10.128.0.0/9 ! -o arena-tunnel -j DROP */
  const DROP_LEAK: ChainRule := Filter(Cidr(Ten(128, 0, 0), 9), TUNNEL, Drop)

  /** A packet bound for 10.128.0.0 to 10.255.255.255 about to leave by another interface than the tunnel. */
  predicate Leaks(p: Packet) {
    Ten(128, 0, 0) <= p.dst <= Ten(255, 255, 255) && p.outIf != TUNNEL
  }

  // ---------- Commands, each of which may fail ----------

  /** What a fault script says about one command. */
  datatype Call = Works | Fails

  datatype Cmd = NewChain | FlushChain | AppendDrop | DeleteJump | InsertJump | DeleteChain | WriteMarker | RemoveMarker

  /** One command and whether it reported success. A fault makes it fail without effect. */
  function Exec(s: Net, c: Cmd, fault: bool): (Net, bool) {
    if fault then (s, false)
    else match c
      case NewChain => if s.chain.None? then (s.(chain := Some([])), true) else (s, false)
      case FlushChain => if s.chain.Some? then (s.(chain := Some([])), true) else (s, false)
      case AppendDrop => if s.chain.Some? then (s.(chain := Some(s.chain.value + [DROP_LEAK])), true) else (s, false)
      case DeleteJump => (s.(output := DeleteFirst(s.output, Jump)), Jump in s.output)
      case InsertJump => if s.chain.Some? then (s.(output := [Jump] + s.output), true) else (s, false)
      case DeleteChain => if s.chain == Some([]) && Jump !in s.output then (s.(chain := None), true) else (s, false)
      case WriteMarker => (s.(marker := true), true)
      case RemoveMarker => (s.(marker := false), true)
  }

  /** A step of a program: the command and whether its failure ends the program. */
  datatype Step = Step(cmd: Cmd, must: bool)

  const INSTALL: seq<Step> := [
    Step(NewChain, false), Step(FlushChain, true), Step(AppendDrop, true),
    Step(DeleteJump, false), Step(InsertJump, true), Step(WriteMarker, false)]

  const TEARDOWN: seq<Step> := [
    Step(DeleteJump, false), Step(FlushChain, false), Step(DeleteChain, false), Step(RemoveMarker, false)]

  /** How a program ended. */
  datatype End = Done | Failed | Crashed

  /** Runs a program under a script of faults; the process crashes where the script ends. */
  function Run(s: Net, program: seq<Step>, script: seq<Call>): (Net, End)
    decreases |program|
  {
    if program == [] then (s, Done)
    else if script == [] then (s, Crashed)
    else
      var (t, ok) := Exec(s, program[0].cmd, script[0].Fails?);
      if program[0].must && !ok then (t, Failed) else Run(t, program[1..], script[1..])
  }

  /** recoverKillSwitchIfLeftArmed: teardown, then remove the marker once more. */
  const RECOVER: seq<Step> := TEARDOWN + [Step(RemoveMarker, false)]

  function Recovered(s: Net, script: seq<Call>): (Net, End) {
    if s.marker then Run(s, RECOVER, script) else (s, Done)
  }

  // ---------- The client process ----------

  class Client {
    var output: seq<OutRule>
    var chain: Option<seq<ChainRule>>
    var marker: bool
    var script: seq<Call>

    ghost function State(): Net
      reads this
    {
      Net(output, chain, marker)
    }

    constructor (s: Net, script: seq<Call>)
      ensures State() == s && this.script == script
    {
      output, chain, marker := s.output, s.chain, s.marker;
      this.script := script;
    }

    /** Runs one external command; `alive` is false when the process crashes first. */
    method Command(c: Cmd) returns (alive: bool, ok: bool)
      modifies this
      ensures alive == (old(script) != [])
      ensures !alive ==> State() == old(State()) && script == []
      ensures alive ==> (State(), ok) == Exec(old(State()), c, old(script)[0].Fails?) && script == old(script)[1..]
    {
      alive, ok := script != [], false;
      if !alive {
        return;
      }
      var fault := script[0].Fails?;
      script := script[1..];
      if fault {
        return;
      }
      match c {
        case NewChain =>
          if chain.None? { chain, ok := Some([]), true; }
        case FlushChain =>
          if chain.Some? { chain, ok := Some([]), true; }
        case AppendDrop =>
          if chain.Some? { chain, ok := Some(chain.value + [DROP_LEAK]), true; }
        case DeleteJump =>
          ok := Jump in output;
          output := DeleteFirst(output, Jump);
        case InsertJump =>
          if chain.Some? { output, ok := [Jump] + output, true; }
        case DeleteChain =>
          if chain == Some([]) && Jump !in output { chain, ok := None, true; }
        case WriteMarker =>
          marker, ok := true, true;
        case RemoveMarker =>
          marker, ok := false, true;
      }
    }

    method Install() returns (end: End)
      modifies this
      ensures (State(), end) == Run(old(State()), INSTALL, old(script))
    {
      var alive, ok := Command(NewChain);
      if !alive { return Crashed; }
      alive, ok := Command(FlushChain);
      if !alive { return Crashed; }
      if !ok { return Failed; }
      alive, ok := Command(AppendDrop);
      if !alive { return Crashed; }
      if !ok { return Failed; }
      alive, ok := Command(DeleteJump);
      if !alive { return Crashed; }
      alive, ok := Command(InsertJump);
      if !alive { return Crashed; }
      if !ok { return Failed; }
      alive, ok := Command(WriteMarker);
      end := if alive then Done else Crashed;
    }

    method Teardown() returns (end: End)
      modifies this
      ensures (State(), end) == Run(old(State()), TEARDOWN, old(script))
      ensures end.Done? ==> |old(script)| >= 4 && script == old(script)[4..]
    {
      var alive, ok := Command(DeleteJump);
      if !alive { return Crashed; }
      alive, ok := Command(FlushChain);
      if !alive { return Crashed; }
      alive, ok := Command(DeleteChain);
      if !alive { return Crashed; }
      alive, ok := Command(RemoveMarker);
      end := if alive then Done else Crashed;
    }

    method Recover() returns (end: End)
      modifies this
      ensures (State(), end) == Recovered(old(State()), old(script))
    {
      if !marker {
        return Done;
      }
      RunConcat(State(), TEARDOWN, [Step(RemoveMarker, false)], script);
      end := Teardown();
      if end.Done? {
        var alive, ok := Command(RemoveMarker);
        end := if alive then Done else Crashed;
      }
    }
  }

  lemma {:induction false} RunConcat(s: Net, a: seq<Step>, b: seq<Step>, script: seq<Call>)
    ensures Run(s, a + b, script) ==
            var (t, end) := Run(s, a, script);
            if end.Done? && |a| <= |script| then Run(t, b, script[|a|..]) else (t, end)
    ensures Run(s, a, script).1.Done? ==> |a| <= |script|
    decreases |a|
  {
    if a == [] {
      assert a + b == b;
    } else if script != [] {
      assert (a + b)[1..] == a[1..] + b;
      var (t, ok) := Exec(s, a[0].cmd, script[0].Fails?);
      if !(a[0].must && !ok) {
        RunConcat(t, a[1..], b, script[1..]);
      }
    }
  }

  // ---------- Histories ----------

  /** One program run of some process life, with its faults and possibly its crash. */
  datatype Life = Install(script: seq<Call>) | Teardown(script: seq<Call>) | Recover(script: seq<Call>)

  function After(s: Net, l: Life): Net {
    match l
    case Install(script) => Run(s, INSTALL, script).0
    case Teardown(script) => Run(s, TEARDOWN, script).0
    case Recover(script) => Recovered(s, script).0
  }

  function History(s: Net, lives: seq<Life>): Net
    decreases |lives|
  {
    if lives == [] then s else History(After(s, lives[0]), lives[1..])
  }

  function UserRules(output: seq<OutRule>): seq<OutRule> {
    Without(output, {Jump})
  }

  ghost predicate AllDrops(rules: seq<ChainRule>) {
    forall i | 0 <= i < |rules| :: rules[i] == DROP_LEAK
  }

  /** A jump only ever leads to a chain of scenario drops. */
  ghost predicate Safe(s: Net) {
    Jump in s.output ==> s.chain.Some? && AllDrops(s.chain.value)
  }

  /** Whatever fails, one command neither touches user rules nor lets a jump lead elsewhere, provided
      the chain is clean when a jump is inserted. */
  lemma ExecKeepsSafe(s: Net, c: Cmd, fault: bool)
    requires Safe(s)
    requires c.InsertJump? && s.chain.Some? ==> AllDrops(s.chain.value)
    ensures Safe(Exec(s, c, fault).0)
    ensures UserRules(Exec(s, c, fault).0.output) == UserRules(s.output)
  {
    DeleteFirstKeepsOthers(s.output, Jump, {Jump});
    WithoutConcat([Jump], s.output, {Jump});
    if Jump !in s.output {
      DeleteFirstAbsent(s.output, Jump);
    }
    assert Jump in DeleteFirst(s.output, Jump) ==> Jump in s.output by { DeleteFirstMultiset(s.output, Jump); }
  }

  ghost predicate CleanChain(s: Net) {
    s.chain.Some? ==> AllDrops(s.chain.value)
  }

  /** Programs that insert the jump only when the chain is clean keep every intermediate state safe. */
  lemma {:induction false} RunKeepsSafe(s: Net, program: seq<Step>, script: seq<Call>)
    requires Safe(s)
    requires CleanChain(s) || (forall st | st in program :: !st.cmd.InsertJump?)
    ensures Safe(Run(s, program, script).0)
    ensures UserRules(Run(s, program, script).0.output) == UserRules(s.output)
    decreases |program|
  {
    if program != [] && script != [] {
      ExecKeepsSafe(s, program[0].cmd, script[0].Fails?);
      var (t, ok) := Exec(s, program[0].cmd, script[0].Fails?);
      RunKeepsSafe(t, program[1..], script[1..]);
    }
  }

  lemma {:induction false} InstallKeepsSafe(s: Net, script: seq<Call>)
    requires Safe(s)
    ensures Safe(Run(s, INSTALL, script).0)
    ensures UserRules(Run(s, INSTALL, script).0.output) == UserRules(s.output)
  {
    if |script| >= 2 {
      ExecKeepsSafe(s, NewChain, script[0].Fails?);
      var s1 := Exec(s, NewChain, script[0].Fails?).0;
      ExecKeepsSafe(s1, FlushChain, script[1].Fails?);
      var (s2, ok) := Exec(s1, FlushChain, script[1].Fails?);
      assert Run(s1, INSTALL[1..], script[1..])
          == if ok then Run(s2, INSTALL[1..][1..], script[1..][1..]) else (s2, Failed);
      if ok {
        RunKeepsSafe(s2, INSTALL[1..][1..], script[1..][1..]);
      }
    } else if |script| == 1 {
      ExecKeepsSafe(s, NewChain, script[0].Fails?);
      assert Run(Exec(s, NewChain, script[0].Fails?).0, INSTALL[1..], script[1..]).1 == Crashed;
    }
  }

  lemma {:induction false} HistoryKeepsSafe(s: Net, lives: seq<Life>)
    requires Safe(s)
    ensures Safe(History(s, lives)) && UserRules(History(s, lives).output) == UserRules(s.output)
    decreases |lives|
  {
    if lives != [] {
      match lives[0] {
        case Install(script) => InstallKeepsSafe(s, script);
        case Teardown(script) => RunKeepsSafe(s, TEARDOWN, script);
        case Recover(script) => RunKeepsSafe(s, RECOVER, script);
      }
      HistoryKeepsSafe(After(s, lives[0]), lives[1..]);
    }
  }

  // ---------- Verdicts ----------

  function ChainDecision(p: Packet, others: Others): ChainRule -> Option<Verdict> {
    (r: ChainRule) =>
      if r.Leftover? then others(r.id, p)
      else if Covers(r.dst, p.dst) && p.outIf != r.notOut then Some(r.target) else None
  }

  function OutDecision(s: Net, p: Packet, others: Others): OutRule -> Option<Verdict> {
    (r: OutRule) =>
      if r.User? then others(r.id, p)
      else if s.chain.Some? then Decide(s.chain.value, ChainDecision(p, others)) else None
  }

  /** The fate of an outgoing packet. */
  function Fate(s: Net, p: Packet, others: Others, policy: Verdict): Verdict {
    var d := Decide(s.output, OutDecision(s, p, others));
    if d.Some? then d.value else policy
  }

  /** Its fate were there only the user's own rules. */
  function UserFate(output: seq<OutRule>, p: Packet, others: Others, policy: Verdict): Verdict {
    Fate(Net(UserRules(output), None, false), p, others, policy)
  }

  lemma {:induction false} DropsDecide(rules: seq<ChainRule>, p: Packet, others: Others)
    requires AllDrops(rules)
    ensures Decide(rules, ChainDecision(p, others)) == if rules != [] && Leaks(p) then Some(Drop) else None
  {
    if rules != [] {
      ScenarioSpan(p.dst);
      DropsDecide(rules[1..], p, others);
    }
  }

  lemma {:induction false} DecideSame(l: seq<OutRule>, d: OutRule -> Option<Verdict>, e: OutRule -> Option<Verdict>)
    requires forall r | r in l :: d(r) == e(r)
    ensures Decide(l, d) == Decide(l, e)
  {
    if l != [] {
      DecideSame(l[1..], d, e);
    }
  }

  /** At every step of every history that starts without a jump -- any mix of installs, teardowns and
      recoveries, with any commands failing and crashes anywhere -- every packet except a scenario-bound
      one leaving off-tunnel has exactly the fate the user's own rules give it. */
  lemma {:induction false} OtherTrafficUntouched(s: Net, lives: seq<Life>, p: Packet, others: Others, policy: Verdict)
    requires Jump !in s.output
    ensures !(Ten(128, 0, 0) <= p.dst <= Ten(255, 255, 255) && p.outIf != TUNNEL) ==>
              Fate(History(s, lives), p, others, policy) == UserFate(s.output, p, others, policy)
  {
    if !Leaks(p) {
      HarmlessPacketUntouched(s, lives, p, others, policy);
    }
  }

  lemma {:induction false} HarmlessPacketUntouched(s: Net, lives: seq<Life>, p: Packet, others: Others, policy: Verdict)
    requires Jump !in s.output && !Leaks(p)
    ensures Fate(History(s, lives), p, others, policy) == UserFate(s.output, p, others, policy)
  {
    HistoryKeepsSafe(s, lives);
    var t := History(s, lives);
    var d := OutDecision(t, p, others);
    if Jump in t.output {
      DropsDecide(t.chain.value, p, others);
      DecideWithout(t.output, {Jump}, d);
    } else {
      WithoutNothing(t.output, {Jump});
    }
    forall r | r in UserRules(t.output)
      ensures r != Jump
    {
      WithoutMember(t.output, {Jump}, r);
    }
    DecideSame(UserRules(t.output), d, OutDecision(Net(UserRules(t.output), None, false), p, others));
  }

  /** After any history, a completed install drops every leak whatever the user's rules say. */
  lemma {:induction false} InstallProtects(s: Net, script: seq<Call>, p: Packet, others: Others, policy: Verdict)
    ensures var (t, end) := Run(s, INSTALL, script);
            end.Done? && Ten(128, 0, 0) <= p.dst <= Ten(255, 255, 255) && p.outIf != TUNNEL ==>
              Fate(t, p, others, policy) == Drop
  {
    InstallResult(s, script);
    DropsDecide([DROP_LEAK], p, others);
  }

  /** An install in which no command is refused completes, whatever an earlier run left behind. */
  lemma {:induction false} InstallCompletes(s: Net)
    ensures Run(s, INSTALL, [Works, Works, Works, Works, Works, Works]).1.Done?
  {
    var script := [Works, Works, Works, Works, Works, Works];
    RunUnfolds(s, INSTALL, script);
    var s1 := Exec(s, NewChain, false).0;
    RunUnfolds(s1, INSTALL[1..], script[1..]);
    var s2 := Exec(s1, FlushChain, false).0;
    RunUnfolds(s2, INSTALL[1..][1..], script[1..][1..]);
    var s3 := Exec(s2, AppendDrop, false).0;
    RunUnfolds(s3, INSTALL[1..][1..][1..], script[1..][1..][1..]);
    var s4 := Exec(s3, DeleteJump, false).0;
    RunUnfolds(s4, INSTALL[1..][1..][1..][1..], script[1..][1..][1..][1..]);
    var s5 := Exec(s4, InsertJump, false).0;
    RunUnfolds(s5, INSTALL[1..][1..][1..][1..][1..], script[1..][1..][1..][1..][1..]);
  }

  lemma {:induction false} SpliceResult(s: Net, script: seq<Call>)
    requires s.chain.Some?
    ensures var (t, end) := Run(s, INSTALL[3..], script);
            end.Done? ==>
              && |script| >= 3
              && t.chain == s.chain
              && t.output == [Jump] + (if script[0].Fails? then s.output else DeleteFirst(s.output, Jump))
              && t.marker == (s.marker || !script[2].Fails?)
  {
    if script != [] {
      RunUnfolds(s, INSTALL[3..], script);
      var s1 := Exec(s, DeleteJump, script[0].Fails?).0;
      assert INSTALL[3..][1..] == INSTALL[4..] && INSTALL[4..][1..] == INSTALL[5..] && INSTALL[5..][1..] == [];
      if |script| >= 2 {
        RunUnfolds(s1, INSTALL[4..], script[1..]);
        var s2 := Exec(s1, InsertJump, script[1].Fails?).0;
        if |script| >= 3 {
          RunUnfolds(s2, INSTALL[5..], script[1..][1..]);
        }
      }
    }
  }

  lemma {:induction false} AppendResult(s: Net, script: seq<Call>)
    requires s.chain == Some([])
    ensures var (t, end) := Run(s, INSTALL[2..], script);
            end.Done? ==> script != [] && (t, end) == Run(s.(chain := Some([DROP_LEAK])), INSTALL[3..], script[1..])
  {
    if script != [] {
      RunUnfolds(s, INSTALL[2..], script);
      assert INSTALL[2..][1..] == INSTALL[3..] && [] + [DROP_LEAK] == [DROP_LEAK];
    }
  }

  lemma {:induction false} BuildResult(s: Net, script: seq<Call>)
    ensures var (t, end) := Run(s, INSTALL[1..], script);
            end.Done? ==> |script| >= 2 && (t, end) == Run(s.(chain := Some([DROP_LEAK])), INSTALL[3..], script[2..])
  {
    if script != [] {
      RunUnfolds(s, INSTALL[1..], script);
      assert INSTALL[1..][1..] == INSTALL[2..];
      var (s2, ok2) := Exec(s, FlushChain, script[0].Fails?);
      if ok2 {
        AppendResult(s2, script[1..]);
        if script[1..] != [] {
          assert script[1..][1..] == script[2..];
        }
      }
    }
  }

  lemma {:induction false} InstallResult(s: Net, script: seq<Call>)
    ensures var (t, end) := Run(s, INSTALL, script);
            end.Done? ==>
              && |script| >= 6
              && t.chain == Some([DROP_LEAK])
              && t.output == [Jump] + (if script[3].Fails? then s.output else DeleteFirst(s.output, Jump))
              && t.marker == (s.marker || !script[5].Fails?)
  {
    if script != [] {
      RunUnfolds(s, INSTALL, script);
      var s1 := Exec(s, NewChain, script[0].Fails?).0;
      BuildResult(s1, script[1..]);
      if Run(s1, INSTALL[1..], script[1..]).1.Done? {
        assert script[1..][2..] == script[3..];
        SpliceResult(s1.(chain := Some([DROP_LEAK])), script[3..]);
      }
    }
  }

  lemma {:induction false} SpliceEnds(s: Net, script: seq<Call>)
    requires s.chain.Some?
    ensures var end := Run(s, INSTALL[3..], script).1;
            && (end.Done? <==> |script| >= 3 && !script[1].Fails?)
            && (end.Failed? <==> |script| >= 2 && script[1].Fails?)
  {
    if script != [] {
      RunUnfolds(s, INSTALL[3..], script);
      var s1 := Exec(s, DeleteJump, script[0].Fails?).0;
      assert INSTALL[3..][1..] == INSTALL[4..] && INSTALL[4..][1..] == INSTALL[5..] && INSTALL[5..][1..] == [];
      if |script| >= 2 {
        RunUnfolds(s1, INSTALL[4..], script[1..]);
        var s2 := Exec(s1, InsertJump, script[1].Fails?).0;
        if |script| >= 3 {
          RunUnfolds(s2, INSTALL[5..], script[1..][1..]);
        }
      }
    }
  }

  lemma {:induction false} BuildEnds(s: Net, script: seq<Call>)
    ensures var end := Run(s, INSTALL[1..], script).1;
            if |script| >= 2 && s.chain.Some? && !script[0].Fails? && !script[1].Fails?
            then end == Run(s.(chain := Some([DROP_LEAK])), INSTALL[3..], script[2..]).1
            else end == if |script| >= 2 || (|script| == 1 && (s.chain.None? || script[0].Fails?)) then Failed
                        else Crashed
  {
    if script != [] {
      RunUnfolds(s, INSTALL[1..], script);
      assert INSTALL[1..][1..] == INSTALL[2..] && INSTALL[2..][1..] == INSTALL[3..] && [] + [DROP_LEAK] == [DROP_LEAK];
      var (s1, ok) := Exec(s, FlushChain, script[0].Fails?);
      if ok && |script| >= 2 {
        RunUnfolds(s1, INSTALL[2..], script[1..]);
        assert script[1..][1..] == script[2..];
      }
    }
  }

  /** How an install ends, whatever was there before: it completes exactly when it does not crash and
      neither the chain, its rule nor the jump was refused -- a failing delete or marker does not count --
      and it reports an error exactly when it gets to one of those refusals. */
  lemma {:induction false} InstallEnds(s: Net, script: seq<Call>)
    ensures var end := Run(s, INSTALL, script).1;
            && (end.Done? <==> |script| >= 6 && Inserts(s, script))
            && (end.Failed? <==>
                  || (|script| >= 2 && ((s.chain.None? && script[0].Fails?) || script[1].Fails?))
                  || (|script| >= 3 && script[2].Fails?)
                  || (|script| >= 5 && script[4].Fails?))
  {
    if script != [] {
      RunUnfolds(s, INSTALL, script);
      var s1 := Exec(s, NewChain, script[0].Fails?).0;
      BuildEnds(s1, script[1..]);
      if |script| >= 3 && s1.chain.Some? && !script[1].Fails? && !script[2].Fails? {
        assert script[1..][2..] == script[3..];
        SpliceEnds(s1.(chain := Some([DROP_LEAK])), script[3..]);
      }
    }
  }

  lemma {:induction false} RunUnfolds(s: Net, program: seq<Step>, script: seq<Call>)
    requires program != [] && script != []
    ensures Run(s, program, script) ==
            var (t, ok) := Exec(s, program[0].cmd, script[0].Fails?);
            if program[0].must && !ok then (t, Failed) else Run(t, program[1..], script[1..])
  {
  }

  // ---------- The jump stays unique, and teardown restores ----------

  function Jumps(s: Net): nat {
    multiset(s.output)[Jump]
  }

  lemma ExecJumps(s: Net, c: Cmd, fault: bool)
    ensures var t := Exec(s, c, fault).0;
            Jumps(t) == if fault then Jumps(s)
                        else if c.DeleteJump? then (if Jumps(s) > 0 then Jumps(s) - 1 else 0)
                        else if c.InsertJump? && s.chain.Some? then Jumps(s) + 1
                        else Jumps(s)
  {
    if c.DeleteJump? {
      DeleteFirstMultiset(s.output, Jump);
    } else if c.InsertJump? {
      assert multiset([Jump] + s.output) == multiset{Jump} + multiset(s.output);
    }
  }

  /** An install of this script gets as far as deleting the old jump: the chain was there or could be
      made, and neither the flush nor the drop rule was refused. */
  predicate Builds(s: Net, script: seq<Call>) {
    |script| >= 4 && (s.chain.Some? || !script[0].Fails?) && !script[1].Fails? && !script[2].Fails?
  }

  /** It gets as far as inserting the jump. */
  predicate Inserts(s: Net, script: seq<Call>) {
    Builds(s, script) && |script| >= 5 && !script[4].Fails?
  }

  lemma {:induction false} InsertJumps(s: Net, script: seq<Call>)
    requires s.chain.Some?
    ensures Jumps(Run(s, INSTALL[4..], script).0) == Jumps(s) + if script != [] && !script[0].Fails? then 1 else 0
  {
    if script != [] {
      RunUnfolds(s, INSTALL[4..], script);
      ExecJumps(s, InsertJump, script[0].Fails?);
      assert INSTALL[4..][1..] == INSTALL[5..] && INSTALL[5..][1..] == [];
      if |script| >= 2 {
        RunUnfolds(Exec(s, InsertJump, script[0].Fails?).0, INSTALL[5..], script[1..]);
      }
    }
  }

  lemma {:induction false} SpliceJumps(s: Net, script: seq<Call>)
    requires s.chain.Some?
    ensures var n := if script != [] && !script[0].Fails? && Jumps(s) > 0 then Jumps(s) - 1 else Jumps(s);
            Jumps(Run(s, INSTALL[3..], script).0) == if |script| >= 2 && !script[1].Fails? then n + 1 else n
  {
    if script != [] {
      RunUnfolds(s, INSTALL[3..], script);
      ExecJumps(s, DeleteJump, script[0].Fails?);
      var s1 := Exec(s, DeleteJump, script[0].Fails?).0;
      assert INSTALL[3..][1..] == INSTALL[4..];
      InsertJumps(s1, script[1..]);
    }
  }

  lemma {:induction false} ChainJumps(s: Net, script: seq<Call>)
    ensures var t := Run(s, INSTALL[1..], script).0;
            if |script| >= 2 && s.chain.Some? && !script[0].Fails? && !script[1].Fails?
            then t == Run(s.(chain := Some([DROP_LEAK])), INSTALL[3..], script[2..]).0
            else Jumps(t) == Jumps(s)
  {
    if script != [] {
      RunUnfolds(s, INSTALL[1..], script);
      assert INSTALL[1..][1..] == INSTALL[2..] && INSTALL[2..][1..] == INSTALL[3..] && [] + [DROP_LEAK] == [DROP_LEAK];
      var (s1, ok) := Exec(s, FlushChain, script[0].Fails?);
      if ok && |script| >= 2 {
        RunUnfolds(s1, INSTALL[2..], script[1..]);
        assert script[1..][1..] == script[2..];
      }
    }
  }

  /** The number of jumps after any install run, completed, refused or crashed anywhere. */
  lemma {:induction false} InstallJumps(s: Net, script: seq<Call>)
    ensures var n := if Builds(s, script) && !script[3].Fails? && Jumps(s) > 0 then Jumps(s) - 1 else Jumps(s);
            Jumps(Run(s, INSTALL, script).0) == if Inserts(s, script) then n + 1 else n
  {
    if script != [] {
      RunUnfolds(s, INSTALL, script);
      var s1 := Exec(s, NewChain, script[0].Fails?).0;
      ChainJumps(s1, script[1..]);
      if |script| >= 3 && s1.chain.Some? && !script[1].Fails? && !script[2].Fails? {
        assert script[1..][2..] == script[3..];
        SpliceJumps(s1.(chain := Some([DROP_LEAK])), script[3..]);
      }
    }
  }

  /** A completed install leaves at most one jump exactly when its one delete could clear all others. */
  lemma {:induction false} InstallUniqueIff(s: Net, script: seq<Call>)
    requires Run(s, INSTALL, script).1.Done?
    ensures |script| >= 6
    ensures Jumps(Run(s, INSTALL, script).0) <= 1 <==> Jumps(s) <= if script[3].Fails? then 0 else 1
  {
    InstallResult(s, script);
    DeleteFirstMultiset(s.output, Jump);
    assert multiset([Jump] + s.output) == multiset{Jump} + multiset(s.output);
    assert multiset([Jump] + DeleteFirst(s.output, Jump)) == multiset{Jump} + multiset(DeleteFirst(s.output, Jump));
  }

  /** This program run inserts a jump right after the delete of a present one was refused; the code
      ignores that refusal. */
  predicate PilesUp(s: Net, l: Life) {
    l.Install? && Inserts(s, l.script) && l.script[3].Fails? && Jump in s.output
  }

  /** The same program run, crashed after k commands. */
  function Cut(l: Life, k: nat): Life {
    match l
    case Install(script) => Install(script[..Min(k, |script|)])
    case Teardown(script) => Teardown(script[..Min(k, |script|)])
    case Recover(script) => Recover(script[..Min(k, |script|)])
  }

  /** The state k commands into program run n of a history. */
  function Moment(s: Net, lives: seq<Life>, n: nat, k: nat): Net
    requires n < |lives|
  {
    After(History(s, lives[..n]), Cut(lives[n], k))
  }

  lemma {:induction false} RunKeepsOutput(s: Net, program: seq<Step>, script: seq<Call>)
    requires forall st | st in program :: !st.cmd.InsertJump? && !st.cmd.DeleteJump?
    ensures Run(s, program, script).0.output == s.output
    decreases |program|
  {
    if program != [] && script != [] {
      assert program[0] in program;
      RunKeepsOutput(Exec(s, program[0].cmd, script[0].Fails?).0, program[1..], script[1..]);
    }
  }

  /** Teardown, and recovery when it acts, touch OUTPUT with their first command only. */
  lemma {:induction false} RemovalOutput(s: Net, program: seq<Step>, script: seq<Call>)
    requires program == TEARDOWN || program == RECOVER
    ensures Run(s, program, script).0.output
         == if script == [] then s.output else Exec(s, DeleteJump, script[0].Fails?).0.output
  {
    if script != [] {
      RunUnfolds(s, program, script);
      RunKeepsOutput(Exec(s, DeleteJump, script[0].Fails?).0, program[1..], script[1..]);
    }
  }

  lemma {:induction false} RemovalJumps(s: Net, program: seq<Step>, script: seq<Call>)
    requires program == TEARDOWN || program == RECOVER
    ensures Jumps(Run(s, program, script).0)
         == if script != [] && !script[0].Fails? && Jumps(s) > 0 then Jumps(s) - 1 else Jumps(s)
  {
    RemovalOutput(s, program, script);
    if script != [] {
      ExecJumps(s, DeleteJump, script[0].Fails?);
    }
  }

  /** One program run from a state with at most one jump leaves more exactly when it piles one up. */
  lemma LifeUniqueIff(s: Net, l: Life)
    requires Jumps(s) <= 1
    ensures Jumps(After(s, l)) <= 1 <==> !PilesUp(s, l)
  {
    match l {
      case Install(script) => InstallJumps(s, script);
      case Teardown(script) => RemovalJumps(s, TEARDOWN, script);
      case Recover(script) => if s.marker { RemovalJumps(s, RECOVER, script); }
    }
  }

  /** A run that piles nothing up has not piled anything up part-way either. */
  lemma CutPilesUp(s: Net, l: Life, k: nat)
    requires PilesUp(s, Cut(l, k))
    ensures PilesUp(s, l)
  {
  }

  lemma CutWhole(l: Life)
    ensures Cut(l, |l.script|) == l
  {
    assert l.script[..|l.script|] == l.script;
  }

  lemma {:induction false} HistorySnoc(s: Net, lives: seq<Life>, n: nat)
    requires n < |lives|
    ensures History(s, lives[..n + 1]) == After(History(s, lives[..n]), lives[n])
    decreases n
  {
    if n > 0 {
      HistorySnoc(After(s, lives[0]), lives[1..], n - 1);
      assert lives[..n + 1][1..] == lives[1..][..n] && lives[..n][1..] == lives[1..][..n - 1];
    } else {
      assert lives[..1][1..] == [] && lives[..0] == [];
    }
  }

  lemma {:induction false} NoPileUpBefore(s: Net, lives: seq<Life>, n: nat)
    requires n <= |lives| && Jumps(s) <= 1
    requires forall i: nat | i < n :: !PilesUp(History(s, lives[..i]), lives[i])
    ensures Jumps(History(s, lives[..n])) <= 1
    decreases n
  {
    if n > 0 {
      NoPileUpBefore(s, lives, n - 1);
      HistorySnoc(s, lives, n - 1);
      LifeUniqueIff(History(s, lives[..n - 1]), lives[n - 1]);
    } else {
      assert lives[..0] == [];
    }
  }

  /** Over any history, with any commands failing and crashes anywhere: OUTPUT has at most one jump in
      every state, between program runs and inside them, exactly when no install inserts its jump right
      after losing the delete of a present one. */
  lemma {:induction false} HistoryKeepsUnique(s: Net, lives: seq<Life>)
    requires Jumps(s) <= 1
    ensures (forall n: nat, k: nat | n < |lives| :: Jumps(Moment(s, lives, n, k)) <= 1)
       <==> (forall n: nat | n < |lives| :: !PilesUp(History(s, lives[..n]), lives[n]))
  {
    if forall n: nat | n < |lives| :: !PilesUp(History(s, lives[..n]), lives[n]) {
      forall n: nat, k: nat | n < |lives|
        ensures Jumps(Moment(s, lives, n, k)) <= 1
      {
        NoPileUpBefore(s, lives, n);
        var before := History(s, lives[..n]);
        LifeUniqueIff(before, Cut(lives[n], k));
        if PilesUp(before, Cut(lives[n], k)) {
          CutPilesUp(before, lives[n], k);
        }
      }
    } else {
      var m: nat :| m < |lives| && PilesUp(History(s, lives[..m]), lives[m]);
      var n := FirstPileUp(s, lives, m);
      NoPileUpBefore(s, lives, n);
      LifeUniqueIff(History(s, lives[..n]), lives[n]);
      CutWhole(lives[n]);
      assert Jumps(Moment(s, lives, n, |lives[n].script|)) > 1;
    }
  }

  /** It happens: a second install whose delete is refused leaves two jumps. */
  lemma LostDeletePilesUp()
    ensures var s := Net([], None, false);
            var lives := [Life.Install([Works, Works, Works, Works, Works, Works]),
                          Life.Install([Fails, Works, Works, Fails, Works, Works])];
            Jumps(History(s, lives)) == 2
  {
    var s := Net([], None, false);
    var first, second := [Works, Works, Works, Works, Works, Works], [Fails, Works, Works, Fails, Works, Works];
    var lives := [Life.Install(first), Life.Install(second)];
    InstallJumps(s, first);
    InstallCompletes(s);
    InstallResult(s, first);
    var t := After(s, lives[0]);
    InstallJumps(t, second);
    assert Jumps(t) == 1 && Jumps(After(t, lives[1])) == 2;
    assert lives[1..][1..] == [] && History(s, lives) == History(t, lives[1..]) == History(After(t, lives[1]), []);
  }

  lemma FirstPileUp(s: Net, lives: seq<Life>, m: nat) returns (n: nat)
    requires m < |lives| && PilesUp(History(s, lives[..m]), lives[m])
    ensures n <= m && PilesUp(History(s, lives[..n]), lives[n])
    ensures forall i: nat | i < n :: !PilesUp(History(s, lives[..i]), lives[i])
    decreases m
  {
    if i: nat :| i < m && PilesUp(History(s, lives[..i]), lives[i]) {
      n := FirstPileUp(s, lives, i);
    } else {
      n := m;
    }
  }

  /** A teardown that ran to its end left OUTPUT as the user's rules alone exactly when its one delete
      could clear every jump: it was effective and there was one, or there was none. */
  lemma {:induction false} TeardownRestores(s: Net, script: seq<Call>)
    requires |script| >= 4
    ensures var (t, end) := Run(s, TEARDOWN, script);
            && end.Done?
            && (t.output == UserRules(s.output) <==> Jumps(s) <= if script[0].Fails? then 0 else 1)
            && (!script[3].Fails? ==> !t.marker)
  {
    TeardownResult(s, script);
    ExecJumps(s, DeleteJump, script[0].Fails?);
    DeleteFirstKeepsOthers(s.output, Jump, {Jump});
    OnlyUsersIff(Run(s, TEARDOWN, script).0.output);
  }

  /** And what else it leaves: the private chain goes exactly when no jump leads to it any more and it
      could be emptied and deleted, and the marker when it could be removed. */
  lemma {:induction false} TeardownRemovesChain(s: Net, script: seq<Call>)
    requires |script| >= 4
    ensures var t := Run(s, TEARDOWN, script).0;
            && (t.chain.None? <==>
                  || s.chain.None?
                  || (!script[2].Fails? && Jump !in t.output && (!script[1].Fails? || s.chain == Some([]))))
            && t.marker == (s.marker && script[3].Fails?)
  {
    RunUnfolds(s, TEARDOWN, script);
    var s1 := Exec(s, DeleteJump, script[0].Fails?).0;
    RunUnfolds(s1, TEARDOWN[1..], script[1..]);
    var s2 := Exec(s1, FlushChain, script[1].Fails?).0;
    assert TEARDOWN[1..][1..] == TEARDOWN[2..] && TEARDOWN[2..][1..] == TEARDOWN[3..] && TEARDOWN[3..][1..] == [];
    RunUnfolds(s2, TEARDOWN[2..], script[1..][1..]);
    var s3 := Exec(s2, DeleteChain, script[2].Fails?).0;
    RunUnfolds(s3, TEARDOWN[3..], script[1..][1..][1..]);
  }

  /** A recovery that acts and runs to its end leaves the marker only if both its removals fail. */
  lemma {:induction false} RecoverMarker(t: Net, script: seq<Call>)
    requires t.marker && |script| >= 5
    ensures Recovered(t, script).0.marker <==> script[3].Fails? && script[4].Fails?
    ensures Recovered(t, script).0.chain == Run(t, TEARDOWN, script).0.chain
  {
    RunConcat(t, TEARDOWN, [Step(RemoveMarker, false)], script);
    TeardownRemovesChain(t, script);
    TeardownResult(t, script);
    RunUnfolds(Run(t, TEARDOWN, script).0, [Step(RemoveMarker, false)], script[4..]);
  }

  lemma {:induction false} TeardownResult(s: Net, script: seq<Call>)
    requires |script| >= 4
    ensures var (t, end) := Run(s, TEARDOWN, script);
            end.Done? && t.output == Exec(s, DeleteJump, script[0].Fails?).0.output && (!script[3].Fails? ==> !t.marker)
  {
    RunUnfolds(s, TEARDOWN, script);
    var s1 := Exec(s, DeleteJump, script[0].Fails?).0;
    RunUnfolds(s1, TEARDOWN[1..], script[1..]);
    var s2 := Exec(s1, FlushChain, script[1].Fails?).0;
    assert TEARDOWN[1..][1..] == TEARDOWN[2..] && TEARDOWN[2..][1..] == TEARDOWN[3..] && TEARDOWN[3..][1..] == [];
    RunUnfolds(s2, TEARDOWN[2..], script[1..][1..]);
    var s3 := Exec(s2, DeleteChain, script[2].Fails?).0;
    RunUnfolds(s3, TEARDOWN[3..], script[1..][1..][1..]);
  }

  lemma OnlyUsersIff(output: seq<OutRule>)
    ensures output == UserRules(output) <==> Jump !in output
    ensures Jump in output <==> multiset(output)[Jump] > 0
  {
    if Jump !in output {
      WithoutNothing(output, {Jump});
    }
    WithoutMember(output, {Jump}, Jump);
  }

  /** Start-up recovery from any state, however its commands fail or crash: it leaves OUTPUT as the
      user's rules alone exactly when there is no jump, or the marker is there, the delete works and
      there is one. */
  lemma RecoverRestores(t: Net, script: seq<Call>)
    ensures Recovered(t, script).0.output == UserRules(t.output)
       <==> Jumps(t) <= if t.marker && script != [] && !script[0].Fails? then 1 else 0
  {
    var u := Recovered(t, script).0;
    assert Jumps(u) == (if t.marker && script != [] && !script[0].Fails? && Jumps(t) > 0 then Jumps(t) - 1
                        else Jumps(t))
        && UserRules(u.output) == UserRules(t.output) by {
      if t.marker {
        RemovalJumps(t, RECOVER, script);
        RemovalOutput(t, RECOVER, script);
        if script != [] {
          DeleteFirstKeepsOthers(t.output, Jump, {Jump});
        }
      }
    }
    OnlyUsersIff(u.output);
  }

  /** So after any history that piled nothing up, a recovery whose delete works restores the original
      user's rules exactly when the marker is there or nothing is armed. */
  lemma {:induction false} RecoverAfterHistory(s: Net, lives: seq<Life>, script: seq<Call>)
    requires Jump !in s.output && script != [] && !script[0].Fails?
    requires forall n: nat | n < |lives| :: !PilesUp(History(s, lives[..n]), lives[n])
    ensures var t := History(s, lives);
            Recovered(t, script).0.output == UserRules(s.output) <==> t.marker || Jump !in t.output
  {
    NoPileUpBefore(s, lives, |lives|);
    assert lives[..|lives|] == lives;
    HistoryKeepsSafe(s, lives);
    var t := History(s, lives);
    RecoverRestores(t, script);
    OnlyUsersIff(t.output);
  }

  /** The case that is not restored: a crash after the jump was inserted and before the marker was. */
  lemma CrashBeforeMarkerStaysArmed()
    ensures var s := Net([], None, false);
            var t := After(s, Life.Install([Works, Works, Works, Works, Works]));
            Jump in t.output && !t.marker && Recovered(t, [Works, Works, Works, Works, Works]).0 == t
  {
    var s := Net([], None, false);
    var script := [Works, Works, Works, Works, Works];
    RunUnfolds(s, INSTALL, script);
    var s1 := Exec(s, NewChain, false).0;
    RunUnfolds(s1, INSTALL[1..], script[1..]);
    var s2 := Exec(s1, FlushChain, false).0;
    RunUnfolds(s2, INSTALL[1..][1..], script[1..][1..]);
    var s3 := Exec(s2, AppendDrop, false).0;
    RunUnfolds(s3, INSTALL[1..][1..][1..], script[1..][1..][1..]);
    var s4 := Exec(s3, DeleteJump, false).0;
    RunUnfolds(s4, INSTALL[1..][1..][1..][1..], script[1..][1..][1..][1..]);
  }
}
