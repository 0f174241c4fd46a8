/** The FORWARD programs of scripts/wg-byoc-postup.sh and scripts/wg-byoc-postdown.sh. */
module ByocFirewall {
  import opened Basics
  import opened Ipv4
  import opened RuleList

  datatype Packet = Packet(inIf: string, outIf: string, src: Addr, dst: Addr, established: bool)

  /** A rule with the matches these scripts use, or any other rule, known by an identity. */
  datatype Rule =
    | Spec(inIf: Option<string>, outIf: Option<string>, src: Option<Prefix>, dst: Option<Prefix>,
           established: bool, target: Verdict)
    | Foreign(id: nat)

  /** What each rule the scripts do not know says about a packet; None lets it fall through. */
  type Others = (nat, Packet) -> Option<Verdict>

  predicate Matches(r: Rule, p: Packet)
    requires r.Spec?
  {
    && (r.inIf.Some? ==> r.inIf.value == p.inIf)
    && (r.outIf.Some? ==> r.outIf.value == p.outIf)
    && (r.src.Some? ==> Covers(r.src.value, p.src))
    && (r.dst.Some? ==> Covers(r.dst.value, p.dst))
    && (r.established ==> p.established)
  }

  function Decision(p: Packet, others: Others): Rule -> Option<Verdict> {
    (r: Rule) => if r.Foreign? then others(r.id, p) else if Matches(r, p) then Some(r.target) else None
  }

  /** The fate of a forwarded packet: the first rule that decides, else the chain's policy. */
  function Fate(l: seq<Rule>, p: Packet, others: Others, policy: Verdict): Verdict {
    var d := Decide(l, Decision(p, others));
    if d.Some? then d.value else policy
  }

  // ---------- The managed rules, in script order ----------

  const MANAGER_LAN: Prefix := Cidr(192 * 0x100_0000 + 168 * 0x1_0000 + 0x100, 24)
  const MANAGEMENT: Prefix := Cidr(Ten(130, 0, 0), 16)
  const SCENARIO: Prefix := Cidr(Ten(128, 0, 0), 9)
  const MGMT_NETS: seq<Prefix> := [MANAGER_LAN, MANAGEMENT]
  const ALLOWED_NETS: seq<Prefix> := [SCENARIO]

  function PeerToPeer(wg: string): Rule { Spec(Some(wg), Some(wg), None, None, false, Drop) }
  function Block(wg: string, net: Prefix): Rule { Spec(Some(wg), None, None, Some(net), false, Drop) }
  function Allow(wg: string, net: Prefix): Rule { Spec(Some(wg), None, None, Some(net), false, Accept) }
  function Established(wg: string): Rule { Spec(None, Some(wg), None, None, true, Accept) }
  function ReturnPath(wg: string, net: Prefix): Rule { Spec(None, Some(wg), Some(net), None, false, Accept) }
  function Deny(wg: string): Rule { Spec(Some(wg), None, None, None, false, Drop) }

  /** Inserted at the top, in this order. */
  function Tops(wg: string): seq<Rule> {
    [PeerToPeer(wg), Block(wg, MANAGER_LAN), Block(wg, MANAGEMENT)]
  }

  /** Appended at the bottom, in this order. */
  function Bottoms(wg: string): seq<Rule> {
    [Allow(wg, SCENARIO), Established(wg), ReturnPath(wg, SCENARIO), Deny(wg)]
  }

  function Elements(rs: seq<Rule>): set<Rule> {
    set r | r in rs
  }

  function Managed(wg: string): set<Rule> {
    Elements(Tops(wg)) + Elements(Bottoms(wg))
  }

  // ---------- Commands ----------

  /** Lost stands for a delete that fails on a busy or broken kernel; the scripts ignore that. */
  datatype Cmd = Delete(r: Rule) | Lost(r: Rule) | Insert(r: Rule) | Append(r: Rule)

  function Step(l: seq<Rule>, c: Cmd): seq<Rule> {
    match c
    case Delete(r) => DeleteFirst(l, r)
    case Lost(_) => l
    case Insert(r) => [r] + l
    case Append(r) => l + [r]
  }

  function Exec(l: seq<Rule>, cs: seq<Cmd>): seq<Rule> {
    if cs == [] then l else Step(Exec(l, cs[..|cs| - 1]), cs[|cs| - 1])
  }

  /** Delete each rule, then add it back at the top or at the bottom. */
  function Replaces(rs: seq<Rule>, top: bool): seq<Cmd> {
    seq(2 * |rs|, i requires 0 <= i < 2 * |rs| =>
      if i % 2 == 0 then Delete(rs[i / 2]) else if top then Insert(rs[i / 2]) else Append(rs[i / 2]))
  }

  function PostupProgram(wg: string): seq<Cmd> {
    Replaces(Tops(wg), true) + Replaces(Bottoms(wg), false)
  }

  function PostdownProgram(wg: string): seq<Cmd> {
    [Delete(Deny(wg)), Delete(ReturnPath(wg, SCENARIO)), Delete(Established(wg)), Delete(Allow(wg, SCENARIO)),
     Delete(Block(wg, MANAGER_LAN)), Delete(Block(wg, MANAGEMENT)), Delete(PeerToPeer(wg))]
  }

  /** What the i-th command comes to when the deletes at the indices in `lost` fail. */
  function Effective(c: Cmd, i: nat, lost: set<nat>): Cmd {
    if c.Delete? && i in lost then Lost(c.r) else c
  }

  function WithLost(program: seq<Cmd>, lost: set<nat>): (cs: seq<Cmd>)
    ensures |cs| == |program|
  {
    seq(|program|, i requires 0 <= i < |program| => Effective(program[i], i, lost))
  }

  /** The list left by a program that lost these deletes and was cut short after `budget` commands. */
  function Interrupted(l: seq<Rule>, program: seq<Cmd>, lost: set<nat>, budget: nat): seq<Rule> {
    Exec(l, WithLost(program, lost)[..Min(budget, |program|)])
  }

  // ---------- The scripts ----------

  ghost predicate ReplacesAt(program: seq<Cmd>, n: nat, r: Rule, top: bool) {
    && n + 1 < |program|
    && program[n] == Delete(r)
    && program[n + 1] == if top then Insert(r) else Append(r)
  }

  ghost predicate TopCalls(wg: string, program: seq<Cmd>) {
    && ReplacesAt(program, 0, PeerToPeer(wg), true)
    && (forall i | 0 <= i < |MGMT_NETS| :: ReplacesAt(program, 2 + 2 * i, Block(wg, MGMT_NETS[i]), true))
  }

  ghost predicate BottomCalls(wg: string, program: seq<Cmd>) {
    && ReplacesAt(program, 6, Allow(wg, ALLOWED_NETS[0]), false)
    && ReplacesAt(program, 8, Established(wg), false)
    && ReplacesAt(program, 10, ReturnPath(wg, ALLOWED_NETS[0]), false)
    && ReplacesAt(program, 12, Deny(wg), false)
  }

  lemma PostupCalls(wg: string)
    ensures |PostupProgram(wg)| == 14 && TopCalls(wg, PostupProgram(wg)) && BottomCalls(wg, PostupProgram(wg))
  {
    var tops, bottoms := Replaces(Tops(wg), true), Replaces(Bottoms(wg), false);
    assert forall k | 0 <= k < 6 :: PostupProgram(wg)[k] == tops[k];
    assert forall k | 0 <= k < 8 :: PostupProgram(wg)[6 + k] == bottoms[k];
  }

  /** A shell working on the kernel's FORWARD list. It executes `budget` more commands and then stops,
      because it was killed or, under `set -e`, because adding a rule failed; the deletes it issues at
      the indices in `lost` fail without effect. */
  class Shell {
    const lost: set<nat>
    var rules: seq<Rule>
    var budget: nat
    var issued: nat
    ghost var done: seq<Cmd>

    constructor (rules: seq<Rule>, lost: set<nat>, budget: nat)
      ensures this.rules == rules && this.lost == lost && this.budget == budget && issued == 0 && done == []
    {
      this.rules, this.lost, this.budget, this.issued, this.done := rules, lost, budget, 0, [];
    }

    method DeleteRule(r: Rule)
      modifies this`rules
      ensures rules == DeleteFirst(old(rules), r)
    {
      var l := rules;
      var i := 0;
      while i < |l| && l[i] != r
        invariant 0 <= i <= |l|
        invariant forall j | 0 <= j < i :: l[j] != r
      {
        i := i + 1;
      }
      if i < |l| {
        DeleteFirstAt(l, r, i);
        rules := l[..i] + l[i + 1..];
      } else {
        DeleteFirstAbsent(l, r);
      }
    }

    method Iptables(c: Cmd) returns (ok: bool)
      modifies this
      ensures ok == (old(budget) > 0)
      ensures ok ==>
                var e := Effective(c, old(issued), lost);
                && rules == Step(old(rules), e)
                && done == old(done) + [e]
                && budget == old(budget) - 1
                && issued == old(issued) + 1
      ensures !ok ==> rules == old(rules) && budget == old(budget) && done == old(done) && issued == old(issued)
    {
      ok := budget > 0;
      if ok {
        ghost var e := Effective(c, issued, lost);
        match c {
        case Delete(r) => if issued !in lost { DeleteRule(r); }
        case Lost(_) =>
        case Insert(r) => rules := [r] + rules;
        case Append(r) => rules := rules + [r];
        }
        budget, issued := budget - 1, issued + 1;
        done := done + [e];
      }
    }

    /** So far exactly a prefix of the program was executed, and the budget paid for it. */
    ghost predicate Follows(start: seq<Rule>, program: seq<Cmd>, budget0: nat)
      reads this
    {
      && done <= WithLost(program, lost)
      && issued == |done|
      && rules == Exec(start, done)
      && |done| + budget == budget0
    }

    /** One more command of the program; a refusal means the budget is spent. */
    method Next(c: Cmd, ghost start: seq<Rule>, ghost program: seq<Cmd>, ghost budget0: nat) returns (ok: bool)
      requires Follows(start, program, budget0)
      requires |done| < |program| && program[|done|] == c
      modifies this
      ensures Follows(start, program, budget0)
      ensures ok ==> |done| == old(|done|) + 1
      ensures !ok ==> rules == Interrupted(start, program, lost, budget0) && budget0 < |program|
    {
      ok := Iptables(c);
      if ok {
        assert done[..|done| - 1] == old(done);
      } else {
        assert done == WithLost(program, lost)[..budget0];
      }
    }

    method Replace(r: Rule, top: bool, ghost start: seq<Rule>, ghost program: seq<Cmd>, ghost budget0: nat)
      returns (ok: bool)
      requires Follows(start, program, budget0)
      requires ReplacesAt(program, |done|, r, top)
      modifies this
      ensures Follows(start, program, budget0)
      ensures ok ==> |done| == old(|done|) + 2
      ensures !ok ==> rules == Interrupted(start, program, lost, budget0) && budget0 < |program|
    {
      ok := Next(Delete(r), start, program, budget0);
      if ok {
        ok := Next(if top then Insert(r) else Append(r), start, program, budget0);
      }
    }

    method Postup(wg: string) returns (ok: bool)
      requires done == [] && issued == 0
      modifies this
      ensures rules == Interrupted(old(rules), PostupProgram(wg), lost, old(budget))
      ensures ok <==> old(budget) >= |PostupProgram(wg)|
    {
      PostupCalls(wg);
      ghost var start, program, b := rules, PostupProgram(wg), budget;
      ok := ReplaceTops(wg, start, program, b);
      if ok {
        ok := ReplaceBottoms(wg, start, program, b);
      }
      ghost var cs := WithLost(program, lost);
      assert ok ==> done == cs == cs[..Min(b, |program|)];
    }

    /** Steps 1 and 2 of the script. */
    method ReplaceTops(wg: string, ghost start: seq<Rule>, ghost program: seq<Cmd>, ghost budget0: nat)
      returns (ok: bool)
      requires Follows(start, program, budget0) && |done| == 0
      requires TopCalls(wg, program)
      modifies this
      ensures Follows(start, program, budget0)
      ensures ok ==> |done| == 6
      ensures !ok ==> rules == Interrupted(start, program, lost, budget0) && budget0 < |program|
    {
      ok := Replace(PeerToPeer(wg), true, start, program, budget0);
      if !ok { return; }
      for i := 0 to |MGMT_NETS|
        invariant ok && Follows(start, program, budget0) && |done| == 2 + 2 * i
      {
        ok := Replace(Block(wg, MGMT_NETS[i]), true, start, program, budget0);
        if !ok { return; }
      }
    }

    /** Steps 3 to 6 of the script. */
    method ReplaceBottoms(wg: string, ghost start: seq<Rule>, ghost program: seq<Cmd>, ghost budget0: nat)
      returns (ok: bool)
      requires Follows(start, program, budget0) && |done| == 6
      requires BottomCalls(wg, program)
      modifies this
      ensures Follows(start, program, budget0)
      ensures ok ==> |done| == 14
      ensures !ok ==> rules == Interrupted(start, program, lost, budget0) && budget0 < |program|
    {
      for i := 0 to |ALLOWED_NETS|
        invariant Follows(start, program, budget0) && |done| == 6 + 2 * i
      {
        ok := Replace(Allow(wg, ALLOWED_NETS[i]), false, start, program, budget0);
        if !ok { return; }
      }
      ok := Replace(Established(wg), false, start, program, budget0);
      if !ok { return; }
      for i := 0 to |ALLOWED_NETS|
        invariant Follows(start, program, budget0) && |done| == 10 + 2 * i
      {
        ok := Replace(ReturnPath(wg, ALLOWED_NETS[i]), false, start, program, budget0);
        if !ok { return; }
      }
      ok := Replace(Deny(wg), false, start, program, budget0);
    }

    method Postdown(wg: string) returns (ok: bool)
      requires done == [] && issued == 0
      modifies this
      ensures rules == Interrupted(old(rules), PostdownProgram(wg), lost, old(budget))
      ensures ok <==> old(budget) >= |PostdownProgram(wg)|
    {
      ghost var start, program, b := rules, PostdownProgram(wg), budget;
      ok := Next(Delete(Deny(wg)), start, program, b);
      if !ok { return; }
      for i := 0 to |ALLOWED_NETS|
        invariant Follows(start, program, b) && |done| == 1 + i
      {
        ok := Next(Delete(ReturnPath(wg, ALLOWED_NETS[i])), start, program, b);
        if !ok { return; }
      }
      ok := Next(Delete(Established(wg)), start, program, b);
      if !ok { return; }
      for i := 0 to |ALLOWED_NETS|
        invariant Follows(start, program, b) && |done| == 3 + i
      {
        ok := Next(Delete(Allow(wg, ALLOWED_NETS[i])), start, program, b);
        if !ok { return; }
      }
      for i := 0 to |MGMT_NETS|
        invariant Follows(start, program, b) && |done| == 4 + i
      {
        ok := Next(Delete(Block(wg, MGMT_NETS[i])), start, program, b);
        if !ok { return; }
      }
      ok := Next(Delete(PeerToPeer(wg)), start, program, b);
      ghost var cs := WithLost(program, lost);
      assert ok ==> done == cs == cs[..Min(b, |program|)];
    }
  }

  // ---------- Normal forms ----------

  ghost predicate Tidy(wg: string, l: seq<Rule>) {
    forall r | r in Managed(wg) :: AtMostOnce(l, r)
  }

  /** The rules the scripts do not manage, in order. */
  function UserRules(wg: string, l: seq<Rule>): seq<Rule> {
    Without(l, Managed(wg))
  }

  ghost predicate Distinct(rs: seq<Rule>) {
    forall i, j | 0 <= i < j < |rs| :: rs[i] != rs[j]
  }

  function Reversed(rs: seq<Rule>): seq<Rule> {
    if rs == [] then [] else [rs[|rs| - 1]] + Reversed(rs[..|rs| - 1])
  }

  lemma {:induction false} ExecConcat(l: seq<Rule>, a: seq<Cmd>, b: seq<Cmd>)
    ensures Exec(l, a + b) == Exec(Exec(l, a), b)
    decreases |b|
  {
    if b == [] {
      assert a + b == a;
    } else {
      assert (a + b)[..|a + b| - 1] == a + b[..|b| - 1];
      ExecConcat(l, a, b[..|b| - 1]);
    }
  }

  lemma {:induction false} ReplacesLast(l: seq<Rule>, rs: seq<Rule>, top: bool)
    requires rs != []
    ensures var r := rs[|rs| - 1];
            var before := DeleteFirst(Exec(l, Replaces(rs[..|rs| - 1], top)), r);
            Exec(l, Replaces(rs, top)) == if top then [r] + before else before + [r]
  {
    var r, init := rs[|rs| - 1], rs[..|rs| - 1];
    var add := if top then Insert(r) else Append(r);
    ReplacesSnoc(rs, top);
    var cs := Replaces(init, top);
    assert (cs + [Delete(r), add])[..|cs| + 1] == cs + [Delete(r)];
    assert (cs + [Delete(r)])[..|cs|] == cs;
  }

  lemma ReplacesSnoc(rs: seq<Rule>, top: bool)
    requires rs != []
    ensures var r := rs[|rs| - 1];
            Replaces(rs, top) == Replaces(rs[..|rs| - 1], top) + [Delete(r), if top then Insert(r) else Append(r)]
  {
    var r, init := rs[|rs| - 1], rs[..|rs| - 1];
    forall i | 0 <= i < 2 * |init|
      ensures Replaces(rs, top)[i] == Replaces(init, top)[i]
    {
      assert rs[i / 2] == init[i / 2];
    }
  }

  lemma {:induction false} ReplacedAtTop(l: seq<Rule>, rs: seq<Rule>)
    requires Distinct(rs) && forall r | r in rs :: AtMostOnce(l, r)
    ensures Exec(l, Replaces(rs, true)) == Reversed(rs) + Without(l, Elements(rs))
    decreases |rs|
  {
    if rs == [] {
      assert Elements(rs) == {};
      WithoutNothing(l, {});
    } else {
      var r, init := rs[|rs| - 1], rs[..|rs| - 1];
      ReplacedAtTop(l, init);
      ReplacesLast(l, rs, true);
      ReversedMember(init, r);
      WithoutOneMore(l, rs);
      DeleteFirstSkips(Reversed(init), Without(l, Elements(init)), r);
    }
  }

  lemma {:induction false} WithoutOneMore(l: seq<Rule>, rs: seq<Rule>)
    requires rs != [] && AtMostOnce(l, rs[|rs| - 1])
    ensures var r := rs[|rs| - 1];
            DeleteFirst(Without(l, Elements(rs[..|rs| - 1])), r) == Without(l, Elements(rs))
  {
    var r, init := rs[|rs| - 1], rs[..|rs| - 1];
    WithoutAtMostOnce(l, Elements(init), r);
    DeleteFirstIsWithout(Without(l, Elements(init)), r);
    WithoutTwice(l, Elements(init), {r});
    assert Elements(rs) == Elements(init) + {r};
  }

  lemma BottomGrows(a: seq<Rule>, rs: seq<Rule>)
    requires rs != []
    ensures (a + rs[..|rs| - 1]) + [rs[|rs| - 1]] == a + rs
  {
  }

  lemma {:induction false} ReplacedAtBottom(l: seq<Rule>, rs: seq<Rule>)
    requires Distinct(rs) && forall r | r in rs :: AtMostOnce(l, r)
    ensures Exec(l, Replaces(rs, false)) == Without(l, Elements(rs)) + rs
    decreases |rs|
  {
    if rs == [] {
      assert Elements(rs) == {};
      WithoutNothing(l, {});
    } else {
      var r, init := rs[|rs| - 1], rs[..|rs| - 1];
      ReplacedAtBottom(l, init);
      ReplacesLast(l, rs, false);
      WithoutOneMore(l, rs);
      DeleteFirstSkipsTail(Without(l, Elements(init)), init, r);
      BottomGrows(Without(l, Elements(rs)), rs);
    }
  }

  lemma {:induction false} ReversedMember(rs: seq<Rule>, x: Rule)
    ensures x in Reversed(rs) <==> x in rs
    decreases |rs|
  {
    if rs != [] {
      ReversedMember(rs[..|rs| - 1], x);
      assert rs == rs[..|rs| - 1] + [rs[|rs| - 1]];
    }
  }

  lemma {:induction false} WithoutAtMostOnce(l: seq<Rule>, gone: set<Rule>, r: Rule)
    requires AtMostOnce(l, r)
    ensures AtMostOnce(Without(l, gone), r)
  {
    if l != [] {
      AtMostOnceTail(l, r);
      WithoutAtMostOnce(l[1..], gone, r);
      WithoutMember(l[1..], gone, r);
    }
  }

  lemma AtMostOnceTail(l: seq<Rule>, r: Rule)
    requires l != [] && AtMostOnce(l, r)
    ensures AtMostOnce(l[1..], r) && (l[0] == r ==> r !in l[1..])
  {
    assert forall i | 0 <= i < |l[1..]| :: l[1..][i] == l[i + 1];
  }

  lemma {:induction false} DeleteFirstSkips(a: seq<Rule>, b: seq<Rule>, r: Rule)
    requires r !in a
    ensures DeleteFirst(a + b, r) == a + DeleteFirst(b, r)
  {
    if a == [] {
      assert a + b == b;
    } else {
      assert (a + b)[1..] == a[1..] + b;
      DeleteFirstSkips(a[1..], b, r);
    }
  }

  lemma {:induction false} DeleteFirstSkipsTail(a: seq<Rule>, b: seq<Rule>, r: Rule)
    requires r !in b
    ensures DeleteFirst(a + b, r) == DeleteFirst(a, r) + b
  {
    if a == [] {
      assert a + b == b;
      DeleteFirstSkips(b, [], r);
      assert b + [] == b;
    } else {
      assert (a + b)[1..] == a[1..] + b;
      DeleteFirstSkipsTail(a[1..], b, r);
    }
  }

  /** The list every completed postup run leaves. */
  function NormalForm(wg: string, users: seq<Rule>): seq<Rule> {
    [Block(wg, MANAGEMENT), Block(wg, MANAGER_LAN), PeerToPeer(wg)] + users + Bottoms(wg)
  }

  /** A completed postup leaves the three drops, the user rules in their order, and the four rules at
      the bottom, whatever the list was, if it held no managed rule twice. */
  lemma {:induction false} PostupNormalForm(wg: string, l: seq<Rule>)
    requires Tidy(wg, l)
    ensures Exec(l, PostupProgram(wg)) == NormalForm(wg, UserRules(wg, l))
  {
    var tops, bottoms := Tops(wg), Bottoms(wg);
    ReplacedAtTop(l, tops);
    var mid := Exec(l, Replaces(tops, true));
    ReversedTops(wg);
    forall r | r in bottoms
      ensures AtMostOnce(mid, r)
    {
      WithoutAtMostOnce(l, Elements(tops), r);
      assert r !in Reversed(tops);
      AtMostOnceConcat(Reversed(tops), Without(l, Elements(tops)), r);
    }
    ReplacedAtBottom(mid, bottoms);
    ExecConcat(l, Replaces(tops, true), Replaces(bottoms, false));
    WithoutConcat(Reversed(tops), Without(l, Elements(tops)), Elements(bottoms));
    WithoutNothing(Reversed(tops), Elements(bottoms));
    WithoutTwice(l, Elements(tops), Elements(bottoms));
  }

  lemma AtMostOnceConcat(a: seq<Rule>, b: seq<Rule>, r: Rule)
    requires r !in a && AtMostOnce(b, r)
    ensures AtMostOnce(a + b, r)
  {
    assert forall i | 0 <= i < |a| :: a[i] in a;
  }

  lemma NormalFormOnce(wg: string, users: seq<Rule>, x: Rule)
    requires x in Managed(wg) && x !in users
    ensures multiset(NormalForm(wg, users))[x] <= 1
  {
    var tops := [Block(wg, MANAGEMENT), Block(wg, MANAGER_LAN), PeerToPeer(wg)];
    assert multiset(tops + users + Bottoms(wg)) == multiset(tops) + multiset(users) + multiset(Bottoms(wg));
    assert multiset(users)[x] == 0;
  }

  // ---------- Interruptions ----------

  predicate Adds(c: Cmd) {
    c.Insert? || c.Append?
  }

  /** Every rule the commands add they tried to delete just before, and all their rules are managed. */
  ghost predicate WellPaired(wg: string, cs: seq<Cmd>) {
    && (forall c | c in cs :: c.r in Managed(wg))
    && (forall i | 0 <= i < |cs| && Adds(cs[i]) :: i > 0 && cs[i - 1] in {Delete(cs[i].r), Lost(cs[i].r)})
  }

  lemma ReplacesWellPaired(wg: string, rs: seq<Rule>, top: bool)
    requires forall r | r in rs :: r in Managed(wg)
    ensures WellPaired(wg, Replaces(rs, top))
  {
    var cs := Replaces(rs, top);
    forall i | 0 <= i < |cs|
      ensures cs[i].r in Managed(wg) && (Adds(cs[i]) ==> i > 0 && cs[i - 1] == Delete(cs[i].r))
    {
      var j := i / 2;
      assert cs[i].r == rs[j] && rs[j] in rs;
      if i % 2 == 1 {
        assert i - 1 == 2 * j && (i - 1) / 2 == j && (i - 1) % 2 == 0;
      }
    }
  }

  lemma WellPairedConcat(wg: string, a: seq<Cmd>, b: seq<Cmd>)
    requires WellPaired(wg, a) && WellPaired(wg, b)
    ensures WellPaired(wg, a + b)
  {
    forall i | 0 <= i < |a + b| && Adds((a + b)[i])
      ensures i > 0 && (a + b)[i - 1] in {Delete((a + b)[i].r), Lost((a + b)[i].r)}
    {
      if i >= |a| {
        assert Adds(b[i - |a|]);
      }
    }
  }

  lemma WithLostWellPaired(wg: string, program: seq<Cmd>, lost: set<nat>, k: nat)
    requires WellPaired(wg, program) && k <= |program|
    ensures WellPaired(wg, WithLost(program, lost)[..k])
  {
    var cs := WithLost(program, lost)[..k];
    forall i | 0 <= i < k
      ensures cs[i].r in Managed(wg) && (Adds(cs[i]) ==> i > 0 && cs[i - 1] in {Delete(cs[i].r), Lost(cs[i].r)})
    {
      assert program[i] in program;
    }
  }

  lemma PostupWellPaired(wg: string)
    ensures WellPaired(wg, PostupProgram(wg))
  {
    ReplacesWellPaired(wg, Tops(wg), true);
    ReplacesWellPaired(wg, Bottoms(wg), false);
    WellPairedConcat(wg, Replaces(Tops(wg), true), Replaces(Bottoms(wg), false));
  }

  lemma PostdownWellPaired(wg: string)
    ensures WellPaired(wg, PostdownProgram(wg))
  {
    ManagedMembers(wg);
    var cs := PostdownProgram(wg);
    forall i | 0 <= i < |cs|
      ensures cs[i].r in Managed(wg) && cs[i].Delete?
    {
    }
  }

  lemma ProgramsWellPaired(wg: string)
    ensures WellPaired(wg, PostupProgram(wg)) && WellPaired(wg, PostdownProgram(wg))
  {
    PostupWellPaired(wg);
    PostdownWellPaired(wg);
  }

  lemma ManagedMembers(wg: string)
    ensures Managed(wg) == {PeerToPeer(wg), Block(wg, MANAGER_LAN), Block(wg, MANAGEMENT), Allow(wg, SCENARIO),
                            Established(wg), ReturnPath(wg, SCENARIO), Deny(wg)}
  {
    var t, b := Tops(wg), Bottoms(wg);
    assert t[0] in t && t[1] in t && t[2] in t && b[0] in b && b[1] in b && b[2] in b && b[3] in b;
  }

  /** Command i adds a rule that is still there because the delete before it was lost. */
  predicate PilesUpAt(l: seq<Rule>, cs: seq<Cmd>, i: nat) {
    1 <= i < |cs| && Adds(cs[i]) && cs[i - 1] == Lost(cs[i].r) && cs[i].r in Exec(l, cs[..i - 1])
  }

  /** As long as nothing piles up, every managed rule stays unique after each command. */
  lemma {:induction false} PrefixKeepsTidy(wg: string, l: seq<Rule>, cs: seq<Cmd>, k: nat)
    requires Tidy(wg, l) && WellPaired(wg, cs) && k <= |cs|
    requires forall i: nat | i < k :: !PilesUpAt(l, cs, i)
    ensures Tidy(wg, Exec(l, cs[..k]))
    ensures k > 0 && cs[k - 1].Delete? ==> cs[k - 1].r !in Exec(l, cs[..k])
    decreases k
  {
    if k > 0 {
      PrefixKeepsTidy(wg, l, cs, k - 1);
      assert cs[..k][..k - 1] == cs[..k - 1];
      var before, r := Exec(l, cs[..k - 1]), cs[k - 1].r;
      assert cs[k - 1] in cs;
      if Adds(cs[k - 1]) {
        AddKeepsTidy(wg, l, cs, k);
      } else if cs[k - 1].Delete? {
        forall x | x in Managed(wg)
          ensures AtMostOnce(DeleteFirst(before, r), x)
        {
          DeleteFirstAtMostOnce(before, r, x);
        }
        DeleteFirstIsWithout(before, r);
        WithoutMember(before, {r}, r);
      }
    }
  }

  lemma {:induction false} AddKeepsTidy(wg: string, l: seq<Rule>, cs: seq<Cmd>, k: nat)
    requires 1 <= k <= |cs| && WellPaired(wg, cs) && Adds(cs[k - 1]) && !PilesUpAt(l, cs, k - 1)
    requires Tidy(wg, Exec(l, cs[..k - 1]))
    requires k > 1 && cs[k - 2].Delete? ==> cs[k - 2].r !in Exec(l, cs[..k - 1])
    ensures Tidy(wg, Exec(l, cs[..k]))
  {
    var before, r := Exec(l, cs[..k - 1]), cs[k - 1].r;
    assert cs[..k][..k - 1] == cs[..k - 1] && cs[..k - 1][..k - 2] == cs[..k - 2];
    assert cs[k - 1] in cs && r !in before;
    forall x | x in Managed(wg)
      ensures AtMostOnce([r] + before, x) && AtMostOnce(before + [r], x)
    {
      AddedAtMostOnce(before, r, x);
    }
  }

  lemma AddedAtMostOnce(l: seq<Rule>, r: Rule, x: Rule)
    requires r !in l && AtMostOnce(l, x)
    ensures AtMostOnce([r] + l, x) && AtMostOnce(l + [r], x)
  {
    CountsAtMostOnce(l, x);
    assert multiset([r] + l) == multiset{r} + multiset(l) && multiset(l + [r]) == multiset{r} + multiset(l);
    AtMostOnceCounts([r] + l, x);
    AtMostOnceCounts(l + [r], x);
  }

  lemma AddedTwice(l: seq<Rule>, r: Rule)
    requires r in l
    ensures !AtMostOnce([r] + l, r) && !AtMostOnce(l + [r], r)
  {
    var i :| 0 <= i < |l| && l[i] == r;
    assert ([r] + l)[0] == r && ([r] + l)[i + 1] == r;
    assert (l + [r])[i] == r && (l + [r])[|l|] == r;
  }

  lemma AddAgain(l: seq<Rule>, c: Cmd)
    requires Adds(c) && c.r in l
    ensures !AtMostOnce(Step(l, c), c.r)
  {
    AddedTwice(l, c.r);
  }

  lemma LostChangesNothing(l: seq<Rule>, cs: seq<Cmd>, n: nat)
    requires n < |cs| && cs[n].Lost?
    ensures Upto(l, cs, n + 1) == Upto(l, cs, n)
  {
    UptoStep(l, cs, n);
  }

  lemma PileUpStays(l: seq<Rule>, cs: seq<Cmd>, i: nat)
    requires PilesUpAt(l, cs, i)
    ensures !AtMostOnce(Upto(l, cs, i + 1), cs[i].r)
  {
    LostChangesNothing(l, cs, i - 1);
    AddAgain(Upto(l, cs, i), cs[i]);
    UptoStep(l, cs, i);
  }

  lemma {:induction false} PileUpIsUntidy(wg: string, l: seq<Rule>, cs: seq<Cmd>, i: nat)
    requires (forall c | c in cs :: c.r in Managed(wg)) && PilesUpAt(l, cs, i)
    ensures !Tidy(wg, Exec(l, cs[..i + 1]))
  {
    PileUpStays(l, cs, i);
    assert cs[i] in cs;
  }

  /** One run of either script: the deletes it lost, and after how many commands it was cut. */
  datatype ScriptRun = Up(lost: set<nat>, budget: nat) | Down(lost: set<nat>, budget: nat)

  function ProgramOf(wg: string, run: ScriptRun): seq<Cmd> {
    if run.Up? then PostupProgram(wg) else PostdownProgram(wg)
  }

  /** The commands a run executes. */
  function Executed(wg: string, run: ScriptRun): seq<Cmd> {
    WithLost(ProgramOf(wg, run), run.lost)[..Min(run.budget, |ProgramOf(wg, run)|)]
  }

  function AfterRun(wg: string, l: seq<Rule>, run: ScriptRun): (after: seq<Rule>)
    ensures after == Interrupted(l, ProgramOf(wg, run), run.lost, run.budget)
  {
    Exec(l, Executed(wg, run))
  }

  function History(wg: string, l: seq<Rule>, runs: seq<ScriptRun>): seq<Rule>
    decreases |runs|
  {
    if runs == [] then l else History(wg, AfterRun(wg, l, runs[0]), runs[1..])
  }

  /** The list k commands into run n of a history. */
  function Moment(wg: string, l: seq<Rule>, runs: seq<ScriptRun>, n: nat, k: nat): seq<Rule>
    requires n < |runs|
  {
    var cs := Executed(wg, runs[n]);
    Exec(History(wg, l, runs[..n]), cs[..Min(k, |cs|)])
  }

  /** Somewhere in this run a rule is added that is still there because its delete was lost. */
  ghost predicate PilesUp(wg: string, l: seq<Rule>, run: ScriptRun) {
    exists i: nat :: PilesUpAt(l, Executed(wg, run), i)
  }

  ghost predicate NoPileUps(wg: string, l: seq<Rule>, runs: seq<ScriptRun>) {
    forall n: nat | n < |runs| :: !PilesUp(wg, History(wg, l, runs[..n]), runs[n])
  }

  /** Every delete these commands lost had nothing to delete: it is the "no such rule" the scripts
      mean to ignore. */
  ghost predicate Harmless(l: seq<Rule>, cs: seq<Cmd>)
    decreases |cs|
  {
    cs != [] ==>
      var init, c := cs[..|cs| - 1], cs[|cs| - 1];
      Harmless(l, init) && (c.Lost? ==> c.r !in Exec(l, init))
  }

  /** Losing such a delete changes nothing. */
  lemma {:induction false} HarmlessSame(l: seq<Rule>, program: seq<Cmd>, lost: set<nat>, k: nat)
    requires k <= |program| && Harmless(l, WithLost(program, lost)[..k])
    ensures Exec(l, WithLost(program, lost)[..k]) == Exec(l, program[..k])
    decreases k
  {
    if k > 0 {
      var cs := WithLost(program, lost);
      assert cs[..k][..k - 1] == cs[..k - 1] && program[..k][..k - 1] == program[..k - 1];
      HarmlessSame(l, program, lost, k - 1);
      if cs[k - 1].Lost? && program[k - 1].Delete? {
        DeleteFirstAbsent(Exec(l, program[..k - 1]), program[k - 1].r);
      }
    }
  }

  lemma {:induction false} HistorySnoc(wg: string, l: seq<Rule>, runs: seq<ScriptRun>, n: nat)
    requires n < |runs|
    ensures History(wg, l, runs[..n + 1]) == AfterRun(wg, History(wg, l, runs[..n]), runs[n])
    decreases n
  {
    if n > 0 {
      HistorySnoc(wg, AfterRun(wg, l, runs[0]), runs[1..], n - 1);
      assert runs[..n + 1][1..] == runs[1..][..n] && runs[..n][1..] == runs[1..][..n - 1];
    } else {
      assert runs[..1][1..] == [] && runs[..0] == [];
    }
  }

  lemma ExecutedWellPaired(wg: string, run: ScriptRun)
    ensures WellPaired(wg, Executed(wg, run))
  {
    ProgramsWellPaired(wg);
    WithLostWellPaired(wg, ProgramOf(wg, run), run.lost, Min(run.budget, |ProgramOf(wg, run)|));
  }

  lemma {:induction false} RunKeepsTidy(wg: string, l: seq<Rule>, run: ScriptRun, k: nat)
    requires Tidy(wg, l) && !PilesUp(wg, l, run)
    ensures Tidy(wg, Exec(l, Executed(wg, run)[..Min(k, |Executed(wg, run)|)]))
  {
    ExecutedWellPaired(wg, run);
    PrefixKeepsTidy(wg, l, Executed(wg, run), Min(k, |Executed(wg, run)|));
  }

  lemma AfterRunTidy(wg: string, l: seq<Rule>, run: ScriptRun)
    requires Tidy(wg, l) && !PilesUp(wg, l, run)
    ensures Tidy(wg, AfterRun(wg, l, run))
  {
    var cs := Executed(wg, run);
    RunKeepsTidy(wg, l, run, |cs|);
    assert cs[..|cs|] == cs;
  }

  lemma {:induction false} TidyBefore(wg: string, l: seq<Rule>, runs: seq<ScriptRun>, n: nat)
    requires Tidy(wg, l) && n <= |runs| && NoPileUps(wg, l, runs)
    ensures Tidy(wg, History(wg, l, runs[..n]))
    decreases n
  {
    if n > 0 {
      TidyBefore(wg, l, runs, n - 1);
      HistorySnoc(wg, l, runs, n - 1);
      AfterRunTidy(wg, History(wg, l, runs[..n - 1]), runs[n - 1]);
    } else {
      assert runs[..0] == [];
    }
  }

  lemma PiledUpMoment(wg: string, l: seq<Rule>, run: ScriptRun) returns (k: nat)
    requires PilesUp(wg, l, run)
    ensures k <= |Executed(wg, run)| && !Tidy(wg, Exec(l, Executed(wg, run)[..k]))
  {
    var cs := Executed(wg, run);
    var i: nat :| PilesUpAt(l, cs, i);
    ExecutedWellPaired(wg, run);
    PileUpIsUntidy(wg, l, cs, i);
    k := i + 1;
  }

  /** Over any history of complete and interrupted runs of both scripts, with any deletes failing: every
      managed rule is present at most once at every moment exactly when no run ever adds a rule right
      after losing the delete of a present one. */
  lemma HistoryKeepsTidy(wg: string, l: seq<Rule>, runs: seq<ScriptRun>)
    requires Tidy(wg, l)
    ensures (forall n: nat, k: nat | n < |runs| :: Tidy(wg, Moment(wg, l, runs, n, k))) <==> NoPileUps(wg, l, runs)
  {
    if NoPileUps(wg, l, runs) {
      forall n: nat, k: nat | n < |runs|
        ensures Tidy(wg, Moment(wg, l, runs, n, k))
      {
        TidyBefore(wg, l, runs, n);
        RunKeepsTidy(wg, History(wg, l, runs[..n]), runs[n], k);
      }
    } else {
      var n: nat :| n < |runs| && PilesUp(wg, History(wg, l, runs[..n]), runs[n]);
      var k := PiledUpMoment(wg, History(wg, l, runs[..n]), runs[n]);
      assert !Tidy(wg, Moment(wg, l, runs, n, k));
    }
  }

  lemma {:induction false} ExecKeepsUsers(wg: string, l: seq<Rule>, cs: seq<Cmd>)
    requires forall c | c in cs :: c.r in Managed(wg)
    ensures UserRules(wg, Exec(l, cs)) == UserRules(wg, l)
    decreases |cs|
  {
    if cs != [] {
      var init, c, managed := cs[..|cs| - 1], cs[|cs| - 1], Managed(wg);
      ExecKeepsUsers(wg, l, init);
      var before := Exec(l, init);
      DeleteFirstKeepsOthers(before, c.r, managed);
      WithoutConcat([c.r], before, managed);
      WithoutConcat(before, [c.r], managed);
    }
  }

  /** Whatever deletes fail and wherever runs are cut, no history touches the rules the scripts do
      not manage. */
  lemma {:induction false} HistoryKeepsUsers(wg: string, l: seq<Rule>, runs: seq<ScriptRun>)
    ensures UserRules(wg, History(wg, l, runs)) == UserRules(wg, l)
    decreases |runs|
  {
    if runs != [] {
      ExecutedWellPaired(wg, runs[0]);
      ExecKeepsUsers(wg, l, Executed(wg, runs[0]));
      HistoryKeepsUsers(wg, AfterRun(wg, l, runs[0]), runs[1..]);
    }
  }

  lemma {:induction false} HistoryStaysTidy(wg: string, l: seq<Rule>, runs: seq<ScriptRun>)
    requires Tidy(wg, l) && NoPileUps(wg, l, runs)
    ensures Tidy(wg, History(wg, l, runs)) && UserRules(wg, History(wg, l, runs)) == UserRules(wg, l)
  {
    TidyBefore(wg, l, runs, |runs|);
    assert runs[..|runs|] == runs;
    HistoryKeepsUsers(wg, l, runs);
  }

  /** After any history of complete and interrupted runs of both scripts, a completed postup reaches
      one and the same list. In particular postup is idempotent and safe to re-run. */
  lemma {:induction false} RerunConverges(wg: string, l: seq<Rule>, runs: seq<ScriptRun>)
    requires Tidy(wg, l) && NoPileUps(wg, l, runs)
    ensures Exec(History(wg, l, runs), PostupProgram(wg)) == NormalForm(wg, UserRules(wg, l))
  {
    HistoryStaysTidy(wg, l, runs);
    PostupNormalForm(wg, History(wg, l, runs));
  }

  // ---------- A completed postup that lost deletes ----------

  function ScriptOrder(wg: string): seq<Rule> {
    Tops(wg) + Bottoms(wg)
  }

  /** The program is one delete-and-add pair for each rule of rs, and no rule has two. */
  ghost predicate Pairs(program: seq<Cmd>, rs: seq<Rule>) {
    && |program| == 2 * |rs| && Distinct(rs)
    && (forall j {:trigger rs[j]} | 0 <= j < |rs| :: IsPair(program[2 * j], program[2 * j + 1], rs[j]))
  }

  predicate IsPair(del: Cmd, add: Cmd, r: Rule) {
    del == Delete(r) && (add == Insert(r) || add == Append(r))
  }

  /** Whether a run of such a program lost its one delete of r. */
  ghost predicate LostRule(rs: seq<Rule>, lost: set<nat>, r: Rule) {
    exists j {:trigger rs[j]} | 0 <= j < |rs| :: rs[j] == r && 2 * j in lost
  }

  lemma ReplacesPairs(rs: seq<Rule>, top: bool)
    requires Distinct(rs)
    ensures Pairs(Replaces(rs, top), rs)
  {
    forall j | 0 <= j < |rs|
      ensures IsPair(Replaces(rs, top)[2 * j], Replaces(rs, top)[2 * j + 1], rs[j])
    {
      assert (2 * j) / 2 == j && (2 * j + 1) / 2 == j;
    }
  }

  lemma PairsConcat(p: seq<Cmd>, rs: seq<Rule>, q: seq<Cmd>, qs: seq<Rule>)
    requires Pairs(p, rs) && Pairs(q, qs) && Distinct(rs + qs)
    ensures Pairs(p + q, rs + qs)
  {
    forall j | 0 <= j < |rs + qs|
      ensures IsPair((p + q)[2 * j], (p + q)[2 * j + 1], (rs + qs)[j])
    {
      if j < |rs| {
        assert IsPair(p[2 * j], p[2 * j + 1], rs[j]);
      } else {
        var i := j - |rs|;
        assert IsPair(q[2 * i], q[2 * i + 1], qs[i]);
      }
    }
  }

  lemma ManagedDiffer(wg: string)
    ensures Distinct(Tops(wg)) && Distinct(Bottoms(wg))
    ensures forall r | r in Tops(wg) :: r !in Bottoms(wg)
  {
    var t, b := Tops(wg), Bottoms(wg);
    assert t == [t[0], t[1], t[2]] && b == [b[0], b[1], b[2], b[3]];
    assert t[0] != t[1] && t[0] != t[2] && t[1] != t[2];
  }

  lemma DistinctConcat(a: seq<Rule>, b: seq<Rule>)
    requires Distinct(a) && Distinct(b) && forall r | r in a :: r !in b
    ensures Distinct(a + b)
  {
    forall i, j | 0 <= i < j < |a + b|
      ensures (a + b)[i] != (a + b)[j]
    {
      if i < |a| <= j {
        assert a[i] in a && b[j - |a|] in b;
      }
    }
  }

  lemma PostupPairs(wg: string)
    ensures Pairs(PostupProgram(wg), ScriptOrder(wg))
  {
    ManagedDiffer(wg);
    var tops, bottoms := Tops(wg), Bottoms(wg);
    DistinctConcat(tops, bottoms);
    ReplacesPairs(tops, true);
    ReplacesPairs(bottoms, false);
    PairsConcat(Replaces(tops, true), tops, Replaces(bottoms, false), bottoms);
  }

  lemma ScriptOrderMembers(wg: string)
    ensures |ScriptOrder(wg)| == 7 && forall r :: r in ScriptOrder(wg) <==> r in Managed(wg)
  {
    assert forall r :: r in ScriptOrder(wg) <==> r in Tops(wg) || r in Bottoms(wg);
  }

  /** One delete, lost or not, and the insertion or append after it. */
  lemma PairCounts(l: seq<Rule>, del: Cmd, add: Cmd, r: Rule, x: Rule)
    requires del == Delete(r) || del == Lost(r)
    requires add == Insert(r) || add == Append(r)
    ensures var n := multiset(l)[x];
            multiset(Step(Step(l, del), add))[x] == if x == r then Piled(n, del.Lost?) else n
  {
    DeleteCount(l, del, r, x);
    AddCount(Step(l, del), add, r, x);
  }

  lemma DeleteCount(l: seq<Rule>, del: Cmd, r: Rule, x: Rule)
    requires del == Delete(r) || del == Lost(r)
    ensures var n := multiset(l)[x]; multiset(Step(l, del))[x] == if x == r && del.Delete? && n > 0 then n - 1 else n
  {
    DeleteFirstMultiset(l, r);
  }

  lemma AddCount(l: seq<Rule>, add: Cmd, r: Rule, x: Rule)
    requires add == Insert(r) || add == Append(r)
    ensures multiset(Step(l, add))[x] == multiset(l)[x] + if x == r then 1 else 0
  {
    assert multiset([r] + l) == multiset{r} + multiset(l);
    assert multiset(l + [r]) == multiset{r} + multiset(l);
  }

  /** How often a rule is on the list once its pair has run: a lost delete lets it pile up. */
  function Piled(n: nat, lost: bool): nat {
    if lost || n == 0 then n + 1 else n
  }

  /** The list after the first n commands. */
  function Upto(l: seq<Rule>, cs: seq<Cmd>, n: nat): seq<Rule>
    requires n <= |cs|
  {
    Exec(l, cs[..n])
  }

  lemma UptoStep(l: seq<Rule>, cs: seq<Cmd>, n: nat)
    requires n < |cs|
    ensures Upto(l, cs, n + 1) == Step(Upto(l, cs, n), cs[n])
  {
    assert cs[..n + 1][..n] == cs[..n];
  }

  lemma PairAt(program: seq<Cmd>, rs: seq<Rule>, lost: set<nat>, k: nat)
    requires Pairs(program, rs) && k < |rs|
    ensures WithLost(program, lost)[2 * k] == if 2 * k in lost then Lost(rs[k]) else Delete(rs[k])
    ensures WithLost(program, lost)[2 * k + 1] in {Insert(rs[k]), Append(rs[k])}
  {
    assert IsPair(program[2 * k], program[2 * k + 1], rs[k]);
  }

  lemma PairCountsAt(l: seq<Rule>, program: seq<Cmd>, rs: seq<Rule>, lost: set<nat>, k: nat, j: nat)
    requires Pairs(program, rs) && k < |rs| && j < |rs|
    ensures var cs := WithLost(program, lost);
            var n := multiset(Upto(l, cs, 2 * k))[rs[j]];
            multiset(Upto(l, cs, 2 * k + 2))[rs[j]] == if j == k then Piled(n, 2 * k in lost) else n
  {
    PairAt(program, rs, lost, k);
    TwoSteps(l, WithLost(program, lost), 2 * k, rs[k], rs[j]);
    assert rs[j] == rs[k] <==> j == k;
  }

  lemma TwoSteps(l: seq<Rule>, cs: seq<Cmd>, n: nat, r: Rule, x: Rule)
    requires n + 1 < |cs|
    requires cs[n] == Delete(r) || cs[n] == Lost(r)
    requires cs[n + 1] == Insert(r) || cs[n + 1] == Append(r)
    ensures var m := multiset(Upto(l, cs, n))[x];
            multiset(Upto(l, cs, n + 2))[x] == if x == r then Piled(m, cs[n].Lost?) else m
  {
    UptoStep(l, cs, n);
    UptoStep(l, cs, n + 1);
    PairCounts(Upto(l, cs, n), cs[n], cs[n + 1], r, x);
  }

  lemma {:induction false} PairsCount(l: seq<Rule>, program: seq<Cmd>, rs: seq<Rule>, lost: set<nat>, k: nat, j: nat)
    requires Pairs(program, rs) && k <= |rs| && j < |rs|
    ensures multiset(Upto(l, WithLost(program, lost), 2 * k))[rs[j]]
         == if j < k then Piled(multiset(l)[rs[j]], 2 * j in lost) else multiset(l)[rs[j]]
    decreases k
  {
    if k == 0 {
      assert WithLost(program, lost)[..0] == [];
    } else {
      PairsCount(l, program, rs, lost, k - 1, j);
      PairCountsAt(l, program, rs, lost, k - 1, j);
    }
  }

  lemma {:induction false} HarmlessExtended(l: seq<Rule>, cs: seq<Cmd>, n: nat)
    requires n < |cs| && Harmless(l, cs[..n])
    requires cs[n].Lost? ==> cs[n].r !in Exec(l, cs[..n])
    ensures Harmless(l, cs[..n + 1])
  {
    assert cs[..n + 1][..n] == cs[..n];
  }

  lemma {:induction false} PairHarmless(l: seq<Rule>, cs: seq<Cmd>, n: nat)
    requires n + 1 < |cs| && Harmless(l, cs[..n])
    requires cs[n].Lost? ==> multiset(Upto(l, cs, n))[cs[n].r] == 0
    requires !cs[n + 1].Lost?
    ensures Harmless(l, cs[..n + 2])
  {
    HarmlessExtended(l, cs, n);
    HarmlessExtended(l, cs, n + 1);
  }

  lemma {:induction false} PairsHarmless(l: seq<Rule>, program: seq<Cmd>, rs: seq<Rule>, lost: set<nat>, k: nat)
    requires Pairs(program, rs) && k <= |rs|
    requires forall r | r in rs && LostRule(rs, lost, r) :: r !in l
    ensures Harmless(l, WithLost(program, lost)[..2 * k])
    decreases k
  {
    if k > 0 {
      PairsHarmless(l, program, rs, lost, k - 1);
      PairAt(program, rs, lost, k - 1);
      PairsCount(l, program, rs, lost, k - 1, k - 1);
      if 2 * (k - 1) in lost {
        assert LostRule(rs, lost, rs[k - 1]);
      }
      PairHarmless(l, WithLost(program, lost), 2 * (k - 1));
    }
  }

  ghost predicate FewEnough(l: seq<Rule>, rs: seq<Rule>, lost: set<nat>) {
    forall r | r in rs :: multiset(l)[r] <= if LostRule(rs, lost, r) then 0 else 1
  }

  lemma {:induction false} PairsAsIfNotLost(l: seq<Rule>, program: seq<Cmd>, rs: seq<Rule>, lost: set<nat>)
    requires Pairs(program, rs) && FewEnough(l, rs, lost)
    ensures Exec(l, WithLost(program, lost)) == Exec(l, program)
    ensures forall r | r in rs :: AtMostOnce(l, r)
  {
    forall r | r in rs
      ensures AtMostOnce(l, r) && (LostRule(rs, lost, r) ==> r !in l)
    {
      AtMostOnceCounts(l, r);
    }
    PairsHarmless(l, program, rs, lost, |rs|);
    HarmlessSame(l, program, lost, |program|);
    assert WithLost(program, lost)[..|program|] == WithLost(program, lost) && program[..|program|] == program;
  }

  lemma PairsPileUp(l: seq<Rule>, program: seq<Cmd>, rs: seq<Rule>, lost: set<nat>) returns (x: Rule)
    requires Pairs(program, rs) && !FewEnough(l, rs, lost)
    ensures x in rs && multiset(Exec(l, WithLost(program, lost)))[x] > 1
  {
    x :| x in rs && multiset(l)[x] > if LostRule(rs, lost, x) then 0 else 1;
    var j: nat :| j < |rs| && rs[j] == x && (LostRule(rs, lost, x) ==> 2 * j in lost);
    PairsCount(l, program, rs, lost, |rs|, j);
    assert WithLost(program, lost)[..2 * |rs|] == WithLost(program, lost);
  }

  /** The exact reach of a completed postup, from any list and with any of its deletes failing: it
      leaves the normal form exactly when no managed rule was there twice, nor even once if the delete
      of that rule failed. */
  lemma {:induction false} PostupNormalFormIff(wg: string, l: seq<Rule>, lost: set<nat>)
    ensures Exec(l, WithLost(PostupProgram(wg), lost)) == NormalForm(wg, UserRules(wg, l))
       <==> FewEnough(l, ScriptOrder(wg), lost)
  {
    PostupPairs(wg);
    ScriptOrderMembers(wg);
    if FewEnough(l, ScriptOrder(wg), lost) {
      PairsAsIfNotLost(l, PostupProgram(wg), ScriptOrder(wg), lost);
      PostupNormalForm(wg, l);
    } else {
      var x := PairsPileUp(l, PostupProgram(wg), ScriptOrder(wg), lost);
      WithoutMember(l, Managed(wg), x);
      NormalFormOnce(wg, UserRules(wg, l), x);
    }
  }

  // ---------- A completed postdown, whatever it loses ----------

  function PostdownOrder(wg: string): seq<Rule> {
    [Deny(wg), ReturnPath(wg, SCENARIO), Established(wg), Allow(wg, SCENARIO),
     Block(wg, MANAGER_LAN), Block(wg, MANAGEMENT), PeerToPeer(wg)]
  }

  /** The program is one delete for each rule of rs, and no rule has two. */
  ghost predicate Deletes(program: seq<Cmd>, rs: seq<Rule>) {
    && |program| == |rs| && Distinct(rs)
    && (forall i | 0 <= i < |rs| :: program[i] == Delete(rs[i]))
  }

  lemma PostdownDeletes(wg: string)
    ensures Deletes(PostdownProgram(wg), PostdownOrder(wg))
    ensures forall r :: r in PostdownOrder(wg) <==> r in Managed(wg)
  {
    ManagedMembers(wg);
  }

  lemma DeleteCounts(l: seq<Rule>, cs: seq<Cmd>, n: nat, r: Rule, x: Rule)
    requires n < |cs| && (cs[n] == Delete(r) || cs[n] == Lost(r))
    ensures var m := multiset(Upto(l, cs, n))[x];
            multiset(Upto(l, cs, n + 1))[x] == if x == r && cs[n].Delete? && m > 0 then m - 1 else m
  {
    UptoStep(l, cs, n);
    DeleteCount(Upto(l, cs, n), cs[n], r, x);
  }

  lemma {:induction false} DeletesCount(l: seq<Rule>, program: seq<Cmd>, rs: seq<Rule>, lost: set<nat>, k: nat, j: nat)
    requires Deletes(program, rs) && k <= |rs| && j < |rs|
    ensures var n := multiset(l)[rs[j]];
            multiset(Upto(l, WithLost(program, lost), k))[rs[j]] == if j < k && j !in lost && n > 0 then n - 1 else n
    decreases k
  {
    var cs := WithLost(program, lost);
    if k == 0 {
      assert cs[..0] == [];
    } else {
      DeletesCount(l, program, rs, lost, k - 1, j);
      DeleteCounts(l, cs, k - 1, rs[k - 1], rs[j]);
      assert rs[j] == rs[k - 1] <==> j == k - 1;
    }
  }

  lemma {:induction false} DeletesRestoreIff(wg: string, l: seq<Rule>, program: seq<Cmd>, rs: seq<Rule>, lost: set<nat>)
    requires Deletes(program, rs) && forall r :: r in rs <==> r in Managed(wg)
    ensures Exec(l, WithLost(program, lost)) == UserRules(wg, l)
       <==> forall i | 0 <= i < |rs| :: multiset(l)[rs[i]] <= if i in lost then 0 else 1
  {
    var cs := WithLost(program, lost);
    var after := Exec(l, cs);
    assert cs[..|rs|] == cs;
    forall c | c in cs ensures c.r in Managed(wg) {
      var i :| 0 <= i < |cs| && cs[i] == c;
      assert rs[i] in rs;
    }
    ExecKeepsUsers(wg, l, cs);
    forall i | 0 <= i < |rs|
      ensures rs[i] !in after <==> multiset(l)[rs[i]] <= if i in lost then 0 else 1
    {
      DeletesCount(l, program, rs, lost, |rs|, i);
      assert rs[i] in after <==> multiset(after)[rs[i]] > 0;
    }
    if forall i | 0 <= i < |rs| :: rs[i] !in after {
      WithoutNothing(after, Managed(wg));
    } else {
      var i :| 0 <= i < |rs| && rs[i] in after;
      WithoutMember(l, Managed(wg), rs[i]);
      assert rs[i] in rs;
    }
  }

  /** The exact reach of a completed postdown, from any list and with any of its deletes failing: it
      leaves the user rules alone, in order, exactly when no managed rule was there twice, nor even once
      if the delete of that rule failed. */
  lemma {:induction false} PostdownRestoresIff(wg: string, l: seq<Rule>, lost: set<nat>)
    ensures Exec(l, WithLost(PostdownProgram(wg), lost)) == UserRules(wg, l)
       <==> forall i | 0 <= i < 7 :: multiset(l)[PostdownProgram(wg)[i].r] <= if i in lost then 0 else 1
  {
    PostdownDeletes(wg);
    DeletesRestoreIff(wg, l, PostdownProgram(wg), PostdownOrder(wg), lost);
  }

  lemma {:induction false} PeerToPeerCount(wg: string, l: seq<Rule>, lost: set<nat>)
    ensures multiset(Exec(l, WithLost(PostupProgram(wg), lost)))[PeerToPeer(wg)]
         == Piled(multiset(l)[PeerToPeer(wg)], 0 in lost)
  {
    PostupPairs(wg);
    var cs := WithLost(PostupProgram(wg), lost);
    PairsCount(l, PostupProgram(wg), ScriptOrder(wg), lost, 7, 0);
    assert cs[..14] == cs;
  }

  /** A list with the peer-to-peer rule twice is not cleaned by a completed run of either script. */
  lemma {:induction false} TwiceStaysTwice(wg: string, l: seq<Rule>)
    requires multiset(l)[PeerToPeer(wg)] == 2
    ensures Exec(l, WithLost(PostupProgram(wg), {})) != NormalForm(wg, UserRules(wg, l))
    ensures Exec(l, WithLost(PostdownProgram(wg), {})) != UserRules(wg, l)
  {
    PostupNormalFormIff(wg, l, {});
    assert ScriptOrder(wg)[0] in ScriptOrder(wg);
    PostdownRestoresIff(wg, l, {});
    assert PostdownProgram(wg)[6].r == PeerToPeer(wg);
  }

  /** It happens: after one postup on an empty list, a second one that loses its first delete leaves the
      peer-to-peer rule twice, and no later faultless postup or postdown gets rid of both. */
  lemma LostDeletePilesUp(wg: string)
    ensures var once := Exec([], WithLost(PostupProgram(wg), {}));
            var twice := Exec(once, WithLost(PostupProgram(wg), {0}));
            && multiset(twice)[PeerToPeer(wg)] == 2
            && Exec(twice, WithLost(PostupProgram(wg), {})) != NormalForm(wg, UserRules(wg, twice))
            && Exec(twice, WithLost(PostdownProgram(wg), {})) != UserRules(wg, twice)
  {
    var once := Exec([], WithLost(PostupProgram(wg), {}));
    PeerToPeerCount(wg, [], {});
    PeerToPeerCount(wg, once, {0});
    TwiceStaysTwice(wg, Exec(once, WithLost(PostupProgram(wg), {0})));
  }

  /** So after any history in which nothing piled up, a completed postdown leaves
      exactly the original user rules, in order. */
  lemma {:induction false} PostdownRestores(wg: string, l: seq<Rule>, runs: seq<ScriptRun>)
    requires Tidy(wg, l) && NoPileUps(wg, l, runs)
    ensures Exec(History(wg, l, runs), PostdownProgram(wg)) == UserRules(wg, l)
  {
    HistoryStaysTidy(wg, l, runs);
    PostdownDeletes(wg);
    var after, program := History(wg, l, runs), PostdownProgram(wg);
    forall i | 0 <= i < 7
      ensures multiset(after)[program[i].r] <= 1
    {
      assert PostdownOrder(wg)[i] in PostdownOrder(wg);
      CountsAtMostOnce(after, program[i].r);
    }
    PostdownRestoresIff(wg, after, {});
    assert WithLost(program, {}) == program;
  }

  lemma {:induction false} CountsAtMostOnce(l: seq<Rule>, r: Rule)
    requires AtMostOnce(l, r)
    ensures multiset(l)[r] <= 1
  {
    if l != [] {
      AtMostOnceTail(l, r);
      CountsAtMostOnce(l[1..], r);
      assert l == [l[0]] + l[1..];
    }
  }

  // ---------- What the rules mean ----------

  /** 192.168.1.0 to 192.168.1.255, or 10.130.0.0 to 10.130.255.255. */
  predicate IsManagement(a: Addr) {
    0xC0A8_0100 <= a <= 0xC0A8_01FF || Ten(130, 0, 0) <= a <= Ten(130, 255, 255)
  }

  /** 10.128.0.0 to 10.255.255.255. */
  predicate IsScenario(a: Addr) {
    Ten(128, 0, 0) <= a <= Ten(255, 255, 255)
  }

  lemma NetworkSpans(a: Addr)
    ensures IsManagement(a) <==> Covers(MANAGER_LAN, a) || Covers(MANAGEMENT, a)
    ensures IsScenario(a) <==> Covers(SCENARIO, a)
  {
    TwentyFourSpan(MANAGER_LAN.base, a);
    SixteenSpan(130, a);
    ScenarioSpan(a);
  }

  /** The policy the scripts promise, as a table over packets and what the user rules decide. */
  function Promise(wg: string, p: Packet, user: Option<Verdict>, policy: Verdict): Verdict {
    if p.inIf == wg && (p.outIf == wg || IsManagement(p.dst)) then Drop
    else if user.Some? then user.value
    else if p.inIf == wg then (if IsScenario(p.dst) then Accept else Drop)
    else if p.outIf == wg && (p.established || IsScenario(p.src)) then Accept
    else policy
  }

  lemma {:induction false} PostupVerdicts(wg: string, users: seq<Rule>, p: Packet, others: Others, policy: Verdict)
    ensures Fate(NormalForm(wg, users), p, others, policy)
         == Promise(wg, p, Decide(users, Decision(p, others)), policy)
  {
    var tops := [Block(wg, MANAGEMENT), Block(wg, MANAGER_LAN), PeerToPeer(wg)];
    var d := Decision(p, others);
    DecideConcat(tops + users, Bottoms(wg), d);
    DecideConcat(tops, users, d);
    DecideTops(wg, p, others);
    DecideBottoms(wg, p, others);
  }

  lemma ManagedMatches(wg: string, p: Packet)
    ensures Matches(PeerToPeer(wg), p) <==> p.inIf == wg && p.outIf == wg
    ensures Matches(Established(wg), p) <==> p.outIf == wg && p.established
    ensures Matches(ReturnPath(wg, SCENARIO), p) <==> p.outIf == wg && Covers(SCENARIO, p.src)
    ensures Matches(Deny(wg), p) <==> p.inIf == wg
    ensures forall net: Prefix :: Matches(Block(wg, net), p) <==> p.inIf == wg && Covers(net, p.dst)
    ensures forall net: Prefix :: Matches(Allow(wg, net), p) <==> p.inIf == wg && Covers(net, p.dst)
  {
  }

  lemma DecideTops(wg: string, p: Packet, others: Others)
    ensures Decide([Block(wg, MANAGEMENT), Block(wg, MANAGER_LAN), PeerToPeer(wg)], Decision(p, others))
         == if p.inIf == wg && (p.outIf == wg || IsManagement(p.dst)) then Some(Drop) else None
  {
    var d := Decision(p, others);
    var a, b, c := Block(wg, MANAGEMENT), Block(wg, MANAGER_LAN), PeerToPeer(wg);
    DecideCons(c, [], d);
    DecideCons(b, [c], d);
    DecideCons(a, [b, c], d);
    assert [c] + [] == [c] && [b] + [c] == [b, c] && [a] + [b, c] == [a, b, c];
    ManagedMatches(wg, p);
    NetworkSpans(p.dst);
  }

  lemma DecideBottoms(wg: string, p: Packet, others: Others)
    ensures Decide(Bottoms(wg), Decision(p, others))
         == if p.inIf == wg && IsScenario(p.dst) then Some(Accept)
            else if p.outIf == wg && (p.established || IsScenario(p.src)) then Some(Accept)
            else if p.inIf == wg then Some(Drop) else None
  {
    var d := Decision(p, others);
    var a, b, c, e := Allow(wg, SCENARIO), Established(wg), ReturnPath(wg, SCENARIO), Deny(wg);
    DecideCons(e, [], d);
    DecideCons(c, [e], d);
    DecideCons(b, [c, e], d);
    DecideCons(a, [b, c, e], d);
    assert [e] + [] == [e] && [c] + [e] == [c, e] && [b] + [c, e] == [b, c, e] && [a] + [b, c, e] == Bottoms(wg);
    ManagedMatches(wg, p);
    NetworkSpans(p.dst);
    NetworkSpans(p.src);
  }

  lemma HeadAfterDelete(l: seq<Rule>, del: Cmd, r: Rule, head: seq<Rule>)
    requires head <= l && r !in head
    requires del == Delete(r) || del == Lost(r)
    ensures head <= Step(l, del)
  {
    var rest := l[|head|..];
    assert l == head + rest;
    DeleteFirstSkips(head, rest, r);
  }

  lemma HeadAfterAdd(l: seq<Rule>, add: Cmd, r: Rule, head: seq<Rule>)
    requires head <= l
    requires add == Insert(r) || add == Append(r)
    ensures (if add.Insert? then [r] + head else head) <= Step(l, add)
  {
  }

  /** The program puts the first rules of rs, namely tops, at the top and the others at the bottom. */
  ghost predicate TopsFirst(program: seq<Cmd>, rs: seq<Rule>, tops: seq<Rule>) {
    && Pairs(program, rs) && tops <= rs
    && forall k {:trigger rs[k]} | 0 <= k < |rs| :: program[2 * k + 1].Insert? <==> k < |tops|
  }

  /** What stands at the top once the first k rules were replaced. */
  function Head(tops: seq<Rule>, k: nat): seq<Rule> {
    if k == 0 then [] else if k <= |tops| then [tops[k - 1]] + Head(tops, k - 1) else Head(tops, k - 1)
  }

  lemma {:induction false} HeadMembers(rs: seq<Rule>, tops: seq<Rule>, k: nat, n: nat)
    requires k <= n < |rs| && tops <= rs && Distinct(rs)
    ensures rs[n] !in Head(tops, k)
  {
    if k > 0 {
      HeadMembers(rs, tops, k - 1, n);
      if k <= |tops| {
        assert tops[k - 1] == rs[k - 1] != rs[n];
      }
    }
  }

  /** Commands 2k and 2k+1 move rs[k], not yet at the top, to the top or to the bottom. */
  predicate HeadCommands(cs: seq<Cmd>, rs: seq<Rule>, tops: seq<Rule>, k: nat)
    requires k < |rs|
  {
    && 2 * k + 1 < |cs|
    && (cs[2 * k] == Delete(rs[k]) || cs[2 * k] == Lost(rs[k]))
    && cs[2 * k + 1] == (if k < |tops| then Insert(rs[k]) else Append(rs[k]))
    && (k < |tops| ==> tops[k] == rs[k])
    && rs[k] !in Head(tops, k)
  }

  lemma TopsFirstAt(program: seq<Cmd>, rs: seq<Rule>, tops: seq<Rule>, lost: set<nat>, k: nat)
    requires TopsFirst(program, rs, tops) && k < |rs|
    ensures HeadCommands(WithLost(program, lost), rs, tops, k)
  {
    PairAt(program, rs, lost, k);
    HeadMembers(rs, tops, k, k);
  }

  /** Command i leads from list i to the next. */
  predicate Linked(cs: seq<Cmd>, lists: seq<seq<Rule>>, i: nat) {
    i + 1 < |lists| && i < |cs| && lists[i + 1] == Step(lists[i], cs[i])
  }

  /** The lists between the commands. */
  ghost predicate Between(cs: seq<Cmd>, lists: seq<seq<Rule>>) {
    |lists| == |cs| + 1 && forall i: nat {:trigger Linked(cs, lists, i)} | i < |cs| :: Linked(cs, lists, i)
  }

  function Lists(l: seq<Rule>, cs: seq<Cmd>): seq<seq<Rule>> {
    seq(|cs| + 1, i requires 0 <= i <= |cs| => Upto(l, cs, i))
  }

  lemma ListsBetween(l: seq<Rule>, cs: seq<Cmd>)
    ensures Between(cs, Lists(l, cs))
  {
    forall i: nat | i < |cs|
      ensures Linked(cs, Lists(l, cs), i)
    {
      UptoStep(l, cs, i);
    }
  }

  lemma HeadMoves(a: seq<Rule>, del: Cmd, b: seq<Rule>, add: Cmd, c: seq<Rule>, r: Rule, head: seq<Rule>)
    requires head <= a && r !in head
    requires del == Delete(r) || del == Lost(r)
    requires add == Insert(r) || add == Append(r)
    requires b == Step(a, del) && c == Step(b, add)
    ensures (if add.Insert? then [r] + head else head) <= c
  {
    HeadAfterDelete(a, del, r, head);
    HeadAfterAdd(b, add, r, head);
  }

  lemma HeadStep(cs: seq<Cmd>, lists: seq<seq<Rule>>, rs: seq<Rule>, tops: seq<Rule>, k: nat)
    requires k < |rs| && HeadCommands(cs, rs, tops, k) && Between(cs, lists)
    requires Head(tops, k) <= lists[2 * k]
    ensures Head(tops, k + 1) <= lists[2 * k + 2]
  {
    var n, head := 2 * k, Head(tops, k);
    assert Linked(cs, lists, n) && Linked(cs, lists, n + 1);
    HeadMoves(lists[n], cs[n], lists[n + 1], cs[n + 1], lists[n + 2], rs[k], head);
  }

  /** After the first k pairs of commands, what they moved to the top stands there. */
  lemma {:induction false} HeadStays(cs: seq<Cmd>, lists: seq<seq<Rule>>, rs: seq<Rule>, tops: seq<Rule>, k: nat)
    requires k <= |rs| && 2 * |rs| <= |cs| && Between(cs, lists)
    requires forall j: nat | j < |rs| :: HeadCommands(cs, rs, tops, j)
    ensures Head(tops, k) <= lists[2 * k]
    decreases k
  {
    if k > 0 {
      HeadStays(cs, lists, rs, tops, k - 1);
      HeadStep(cs, lists, rs, tops, k - 1);
    }
  }

  lemma AddedAtTop(wg: string, k: nat)
    requires k < 7
    ensures PostupProgram(wg)[2 * k + 1].Insert? <==> k < 3
  {
    if k < 3 {
      assert PostupProgram(wg)[2 * k + 1] == Replaces(Tops(wg), true)[2 * k + 1];
    } else {
      assert PostupProgram(wg)[2 * k + 1] == Replaces(Bottoms(wg), false)[2 * (k - 3) + 1];
    }
  }

  lemma PostupTopsFirst(wg: string)
    ensures TopsFirst(PostupProgram(wg), ScriptOrder(wg), Tops(wg))
  {
    PostupPairs(wg);
    forall k | 0 <= k < 7
      ensures PostupProgram(wg)[2 * k + 1].Insert? <==> k < 3
    {
      AddedAtTop(wg, k);
    }
  }

  lemma HeadOfPostup(wg: string)
    ensures Head(Tops(wg), 7) == [Block(wg, MANAGEMENT), Block(wg, MANAGER_LAN), PeerToPeer(wg)]
  {
    var tops := Tops(wg);
    assert Head(tops, 7) == Head(tops, 6) == Head(tops, 5) == Head(tops, 4) == Head(tops, 3);
    assert Head(tops, 0) == [] && Head(tops, 1) == [tops[0]] && Head(tops, 2) == [tops[1], tops[0]];
  }

  lemma ReversedTops(wg: string)
    ensures Reversed(Tops(wg)) == [Block(wg, MANAGEMENT), Block(wg, MANAGER_LAN), PeerToPeer(wg)]
  {
    var tops := Tops(wg);
    assert tops[..2] == [tops[0], tops[1]] && tops[..2][..1] == [tops[0]] && tops[..2][..1][..0] == [];
    assert Reversed([tops[0]]) == [tops[0]];
    assert Reversed([tops[0], tops[1]]) == [tops[1]] + Reversed(tops[..2][..1]);
  }

  /** The isolation promise needs no assumption: from any list, duplicates and all, and whatever
      deletes fail, a completed postup drops peer-to-peer and management traffic. */
  lemma {:induction false} IsolationAlways(wg: string, l: seq<Rule>, lost: set<nat>,
                                           p: Packet, others: Others, policy: Verdict)
    requires p.inIf == wg && (p.outIf == wg || IsManagement(p.dst))
    ensures Fate(Exec(l, WithLost(PostupProgram(wg), lost)), p, others, policy) == Drop
  {
    PostupTopsFirst(wg);
    var program, rs := PostupProgram(wg), ScriptOrder(wg);
    var cs := WithLost(program, lost);
    forall j: nat | j < |rs|
      ensures HeadCommands(cs, rs, Tops(wg), j)
    {
      TopsFirstAt(program, rs, Tops(wg), lost, j);
    }
    ListsBetween(l, cs);
    HeadStays(cs, Lists(l, cs), rs, Tops(wg), 7);
    HeadOfPostup(wg);
    assert cs[..14] == cs;
    var head, after := Head(Tops(wg), 7), Exec(l, cs);
    assert after == head + after[3..];
    DecideConcat(head, after[3..], Decision(p, others));
    DecideTops(wg, p, others);
  }

  lemma {:induction false} OffTunnelFate(wg: string, l: seq<Rule>, p: Packet, others: Others, policy: Verdict)
    requires p.inIf != wg && p.outIf != wg
    ensures Decide(l, Decision(p, others)) == Decide(UserRules(wg, l), Decision(p, others))
  {
    ManagedMembers(wg);
    ManagedMatches(wg, p);
    DecideWithout(l, Managed(wg), Decision(p, others));
  }

  /** The whole effect of a completed postup, after any earlier history and for every packet: the
      promised table, and the old fate for a packet that neither enters nor leaves by the tunnel. */
  lemma {:induction false} PostupMeaning(wg: string, l: seq<Rule>, runs: seq<ScriptRun>,
                                         p: Packet, others: Others, policy: Verdict)
    requires Tidy(wg, l) && NoPileUps(wg, l, runs)
    ensures var result := Exec(History(wg, l, runs), PostupProgram(wg));
            var user := Decide(UserRules(wg, l), Decision(p, others));
            && Fate(result, p, others, policy) == Promise(wg, p, user, policy)
            && (p.inIf != wg && p.outIf != wg ==> Fate(result, p, others, policy) == Fate(l, p, others, policy))
  {
    RerunConverges(wg, l, runs);
    PostupVerdicts(wg, UserRules(wg, l), p, others, policy);
    if p.inIf != wg && p.outIf != wg {
      OffTunnelFate(wg, l, p, others, policy);
    }
  }
}
