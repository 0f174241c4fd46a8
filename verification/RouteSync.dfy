/** How the client keeps the kernel's routes in step with the profile: configureTUN, reconcileTUN and
    teardownTUN of client/tun_config_linux.go and client/tun_config_windows.go, driven by the poll loop
    of client/main.go. */
module RouteSync {
  import opened Basics
  import opened Ipv4
  import opened NetworkProfile

  type Routes = set<Prefix>

  /** What fails during one reconcile: the withdrawals that leave their route in place, the routes that
      cannot be installed, and the resolver settings. */
  datatype Faults = Faults(stuck: Routes, refused: Routes, dnsFails: bool)

  /** What a reconcile may leave behind. The additions are tried in an order nobody controls, so which
      of them precede a failing one is open. */
  ghost predicate Reconciles(before: Routes, previous: Routes, next: Routes, f: Faults,
                             added: Routes, after: Routes, ok: bool) {
    && added <= next - previous
    && added !! f.refused
    && (added < next - previous ==> (next - previous) * f.refused != {})
    && after == before - (previous - next - f.stuck) + added
    && (ok <==> added == next - previous && !f.dnsFails)
  }

  /** What may be installed after any one command of a reconcile: while it withdraws, something between
      the old routes and those left by all withdrawals; while it adds, all withdrawals are over. */
  ghost predicate Midway(before: Routes, previous: Routes, next: Routes, f: Faults, x: Routes) {
    var withdrawn := before - (previous - next - f.stuck);
    withdrawn <= x && (x <= before || x <= withdrawn + (next - previous - f.refused))
  }

  /** Every set from index `from` on lies between low and high. */
  ghost predicate Between(trace: seq<Routes>, from: nat, low: Routes, high: Routes) {
    forall i {:trigger trace[i]} | from <= i < |trace| :: low <= trace[i] <= high
  }

  lemma BetweenGrows(trace: seq<Routes>, from: nat, low: Routes, high: Routes, x: Routes)
    requires Between(trace, from, low, high) && low <= x <= high
    ensures Between(trace + [x], from, low, high)
  {
  }

  /** One attempt of the Windows configureTUN: the routes refused, with whether the refusal is the
      adapter not being ready yet, and how the address steps end. */
  datatype Attempt = Attempt(refused: Routes, notReady: bool, address: AddressEnd)

  datatype AddressEnd = Bound | AddressNotReady | AddressFails

  /** The adapter's routes; `trace` records them after every single command. */
  class Adapter {
    var installed: Routes
    ghost var trace: seq<Routes>

    constructor (installed: Routes)
      ensures this.installed == installed && trace == []
    {
      this.installed, this.trace := installed, [];
    }

    method Withdraw(r: Prefix, stuck: bool)
      modifies this
      ensures installed == if stuck then old(installed) else old(installed) - {r}
      ensures trace == old(trace) + [installed]
    {
      if !stuck {
        installed := installed - {r};
      }
      trace := trace + [installed];
    }

    /** "ip route replace", or AddRoute with ERROR_OBJECT_ALREADY_EXISTS taken as success. */
    method Install(r: Prefix, refused: bool) returns (ok: bool)
      modifies this
      ensures ok == !refused
      ensures installed == if refused then old(installed) else old(installed) + {r}
      ensures trace == old(trace) + [installed]
    {
      ok := !refused;
      if ok {
        installed := installed + {r};
      }
      trace := trace + [installed];
    }

    /** Withdraws what the new profile drops, then adds what it brings, stopping at the first route that
        cannot be installed. Both maps are walked in arbitrary order. */
    method Reconcile(previous: Profile, next: Profile, f: Faults) returns (ok: bool, ghost added: Routes)
      modifies this
      ensures Reconciles(old(installed), RouteSet(previous), RouteSet(next), f, added, installed, ok)
      ensures |old(trace)| <= |trace|
      ensures forall i | |old(trace)| <= i < |trace| ::
                Midway(old(installed), RouteSet(previous), RouteSet(next), f, trace[i])
    {
      var previousRoutes, nextRoutes := RouteSet(previous), RouteSet(next);
      WithdrawDropped(previousRoutes, nextRoutes, f.stuck);
      ghost var trace0 := trace;
      ok, added := InstallNew(previousRoutes, nextRoutes, f.refused);
      assert forall i | |old(trace)| <= i < |trace0| :: trace[i] == trace0[i];
      ok := ok && !f.dnsFails;
    }

    method WithdrawDropped(previous: Routes, next: Routes, stuck: Routes)
      modifies this
      ensures installed == old(installed) - (previous - next - stuck)
      ensures old(trace) <= trace && Between(trace, |old(trace)|, installed, old(installed))
    {
      ghost var final := installed - (previous - next - stuck);
      var todo := previous;
      while todo != {}
        invariant todo <= previous
        invariant installed == old(installed) - ((previous - todo) - next - stuck)
        invariant old(trace) <= trace && Between(trace, |old(trace)|, final, old(installed))
        decreases |todo|
      {
        var r :| r in todo;
        todo := todo - {r};
        if r !in next {
          Withdraw(r, r in stuck);
        }
      }
    }

    method InstallWithin(r: Prefix, refused: bool, ghost from: nat, ghost low: Routes, ghost high: Routes)
      returns (ok: bool)
      requires Between(trace, from, low, high) && low <= installed <= high && (!refused ==> r in high)
      modifies this
      ensures ok == !refused
      ensures installed == if refused then old(installed) else old(installed) + {r}
      ensures old(trace) <= trace && Between(trace, from, low, high) && low <= installed <= high
    {
      BetweenGrows(trace, from, low, high, if refused then installed else installed + {r});
      ok := Install(r, refused);
    }

    method InstallNew(previous: Routes, next: Routes, refused: Routes) returns (ok: bool, ghost added: Routes)
      modifies this
      ensures added <= next - previous && added !! refused
      ensures ok <==> added == next - previous
      ensures !ok ==> (next - previous) * refused != {}
      ensures installed == old(installed) + added
      ensures old(trace) <= trace
      ensures Between(trace, |old(trace)|, old(installed), old(installed) + (next - previous - refused))
    {
      added := {};
      var todo := next;
      ghost var low, high := installed, installed + (next - previous - refused);
      while todo != {}
        invariant todo <= next
        invariant added == (next - todo) - previous && added !! refused
        invariant installed == low + added
        invariant low <= installed <= high
        invariant old(trace) <= trace && Between(trace, |old(trace)|, low, high)
        decreases |todo|
      {
        var r :| r in todo;
        if r !in previous {
          ok := InstallWithin(r, r in refused, |old(trace)|, low, high);
          if !ok {
            assert r in (next - previous) * refused && r !in added;
            return;
          }
          added := added + {r};
        }
        todo := todo - {r};
      }
      ok := true;
    }

    /** configureTUN on Linux: every route of the first profile, or an error. */
    method Configure(profile: Profile, refused: Routes) returns (ok: bool)
      modifies this
      ensures ok <==> RouteSet(profile) !! refused
      ensures ok ==> installed == old(installed) + RouteSet(profile)
      ensures old(installed) <= installed <= old(installed) + RouteSet(profile)
      ensures old(trace) <= trace
      ensures Between(trace, |old(trace)|, old(installed), old(installed) + RouteSet(profile))
    {
      var todo := RouteSet(profile);
      while todo != {}
        invariant todo <= RouteSet(profile)
        invariant installed == old(installed) + (RouteSet(profile) - todo)
        invariant RouteSet(profile) - todo !! refused
        invariant old(trace) <= trace
        invariant Between(trace, |old(trace)|, old(installed), old(installed) + RouteSet(profile))
        decreases |todo|
      {
        var r :| r in todo;
        todo := todo - {r};
        ok := Install(r, r in refused);
        if !ok {
          return;
        }
      }
      ok := true;
    }

    /** configureTUN on Windows: the whole block is retried, at most 15 times, as long as the adapter is
        not ready. It succeeds exactly when some attempt goes through after nothing but attempts that
        failed for that reason, and then every route is installed. */
    method ConfigureWithRetries(profile: Profile, attempts: nat -> Attempt) returns (ok: bool)
      modifies this
      ensures ok <==> SomeAttemptGoesThrough(profile, attempts)
      ensures ok ==> installed == old(installed) + RouteSet(profile)
      ensures old(installed) <= installed <= old(installed) + RouteSet(profile)
      ensures old(trace) <= trace
      ensures Between(trace, |old(trace)|, old(installed), old(installed) + RouteSet(profile))
    {
      for k := 0 to 15
        invariant forall j | 0 <= j < k :: NotReady(profile, attempts(j))
        invariant old(installed) <= installed <= old(installed) + RouteSet(profile)
        invariant old(trace) <= trace
        invariant Between(trace, |old(trace)|, old(installed), old(installed) + RouteSet(profile))
      {
        ghost var trace0 := trace;
        var routed := Configure(profile, attempts(k).refused);
        assert forall i | 0 <= i < |trace0| :: trace[i] == trace0[i];
        if !routed {
          if !attempts(k).notReady {
            return false;
          }
        } else {
          match attempts(k).address {
            case Bound => return true;
            case AddressFails => return false;
            case AddressNotReady =>
          }
        }
      }
      ok := false;
    }

    /** teardownTUN on Linux: delete the current profile's routes, then take the link down, which drops
        whatever is left on it. */
    method Teardown(current: Profile, stuck: Routes, linkStuck: bool)
      modifies this
      ensures installed == if linkStuck then old(installed) - (RouteSet(current) - stuck) else {}
      ensures old(trace) <= trace && Between(trace, |old(trace)|, {}, old(installed))
    {
      var todo := RouteSet(current);
      while todo != {}
        invariant todo <= RouteSet(current)
        invariant installed == old(installed) - (RouteSet(current) - todo - stuck)
        invariant old(trace) <= trace && Between(trace, |old(trace)|, {}, old(installed))
        decreases |todo|
      {
        var r :| r in todo;
        todo := todo - {r};
        Withdraw(r, r in stuck);
      }
      if !linkStuck {
        installed := {};
        trace := trace + [installed];
      }
    }
  }

  /** One of 15 attempts goes through, and all before it failed only because the adapter was not ready. */
  ghost predicate SomeAttemptGoesThrough(profile: Profile, attempts: nat -> Attempt) {
    exists k :: 0 <= k < 15 && GoesThrough(profile, attempts(k))
             && forall j | 0 <= j < k :: NotReady(profile, attempts(j))
  }

  predicate GoesThrough(profile: Profile, a: Attempt) {
    RouteSet(profile) !! a.refused && a.address.Bound?
  }

  /** The errors that are retried: ERROR_NOT_FOUND from a route, or from an address step. */
  predicate NotReady(profile: Profile, a: Attempt) {
    if RouteSet(profile) !! a.refused then a.address.AddressNotReady? else a.notReady
  }

  // ---------- The poll loop ----------

  /** The profile the client believes in, and what the kernel has. */
  datatype State = State(current: Profile, installed: Routes)

  /** One tick of the poll loop: nothing fetched, or a profile, with the faults of its reconcile. */
  datatype Tick = NoProfile | Fetched(next: Profile, f: Faults)

  /** A fetched profile that is unsafe is refused; one equal to the current one changes nothing. */
  ghost predicate Polled(s: State, tick: Tick, t: State) {
    if !Acts(s, tick) then t == s
    else exists added, ok ::
      && Reconciles(s.installed, RouteSet(s.current), RouteSet(tick.next), tick.f, added, t.installed, ok)
      && t.current == if ok then tick.next else s.current
  }

  /** Start-up: without a safe profile nothing is touched; otherwise its routes join whatever an earlier
      run left on the adapter, or the client exits. It goes on exactly when the profile is safe, its routes
      could be installed and the resolver could be set. */
  method Start(fetched: Option<Profile>, leftover: Routes, windows: bool, attempts: nat -> Attempt, dnsFails: bool)
    returns (adapter: Adapter, started: bool)
    ensures started <==>
              && fetched.Some? && Safe(fetched.value) && !dnsFails
              && (if windows then SomeAttemptGoesThrough(fetched.value, attempts)
                  else RouteSet(fetched.value) !! attempts(0).refused)
    ensures started ==> Begun(State(fetched.value, adapter.installed), leftover)
    ensures fetched.None? || !Safe(fetched.value) ==> adapter.trace == []
    ensures fetched.Some? ==> Between(adapter.trace, 0, leftover, leftover + RouteSet(fetched.value))
  {
    adapter := new Adapter(leftover);
    var check := Validate(fetched);
    if !check.Accepted? {
      return adapter, false;
    }
    if windows {
      started := adapter.ConfigureWithRetries(fetched.value, attempts);
    } else {
      started := adapter.Configure(fetched.value, attempts(0).refused);
    }
    started := started && !dnsFails;
  }

  /** The client believes in a safe profile and has its routes, besides what was there before. */
  ghost predicate Begun(s: State, leftover: Routes) {
    Safe(s.current) && s.installed == leftover + RouteSet(s.current)
  }

  /** The tick brings a profile the client reconciles to. */
  ghost predicate Acts(s: State, tick: Tick) {
    tick.Fetched? && Safe(tick.next) && tick.next != s.current
  }

  /** The poll loop's critical section as a method. */
  method Poll(adapter: Adapter, current: Profile, fetched: Option<Profile>, f: Faults) returns (now: Profile)
    modifies adapter
    ensures Polled(State(current, old(adapter.installed)), TickOf(fetched, f), State(now, adapter.installed))
    ensures |old(adapter.trace)| <= |adapter.trace|
    ensures !Acts(State(current, old(adapter.installed)), TickOf(fetched, f)) ==> adapter.trace == old(adapter.trace)
    ensures forall i | |old(adapter.trace)| <= i < |adapter.trace| ::
              Passing(State(current, old(adapter.installed)), TickOf(fetched, f), adapter.trace[i])
  {
    now := current;
    var check := Validate(fetched);
    if check.Accepted? && fetched.value != current {
      ghost var before := adapter.installed;
      var ok, added := adapter.Reconcile(current, fetched.value, f);
      if ok {
        now := fetched.value;
      }
      assert Reconciles(before, RouteSet(current), RouteSet(fetched.value), f, added, adapter.installed, ok);
    }
  }

  function TickOf(fetched: Option<Profile>, f: Faults): Tick {
    if fetched.Some? then Fetched(fetched.value, f) else NoProfile
  }

  /** During this tick the kernel may have routes x. */
  ghost predicate Passing(s: State, tick: Tick, x: Routes) {
    Acts(s, tick) && Midway(s.installed, RouteSet(s.current), RouteSet(tick.next), tick.f, x)
  }

  /** A run of the loop: the states between its ticks. */
  ghost predicate IsRun(states: seq<State>, ticks: seq<Tick>) {
    && |states| == |ticks| + 1
    && forall i | 0 <= i < |ticks| :: Polled(states[i], ticks[i], states[i + 1])
  }

  // ---------- Only routes of safe profiles, ever ----------

  /** Some safe profile the client was given at first or in the first n ticks brings the route. */
  ghost predicate Vouched(r: Prefix, first: Profile, ticks: seq<Tick>, n: nat) {
    || r in RouteSet(first)
    || exists i :: 0 <= i < n && i < |ticks| && Tried(ticks[i]) && r in RouteSet(ticks[i].next)
  }

  /** The kernel has routes x at some moment of the run: before or after tick n, or between two commands
      of it. */
  ghost predicate AtMoment(states: seq<State>, ticks: seq<Tick>, n: nat, x: Routes)
    requires |states| == |ticks| + 1
  {
    && n <= |ticks|
    && (x == states[n].installed || (n < |ticks| && Passing(states[n], ticks[n], x)))
  }

  lemma {:induction false} StateIsVouched(states: seq<State>, ticks: seq<Tick>, leftover: Routes, n: nat, r: Prefix)
    requires IsRun(states, ticks) && Begun(states[0], leftover) && n <= |ticks|
    requires r in states[n].installed || r in RouteSet(states[n].current)
    ensures r in leftover || Vouched(r, states[0].current, ticks, n)
    decreases n
  {
    if n > 0 {
      var s, t, tick := states[n - 1], states[n], ticks[n - 1];
      assert Polled(s, tick, t);
      if r in s.installed || r in RouteSet(s.current) {
        StateIsVouched(states, ticks, leftover, n - 1, r);
      } else {
        assert Tried(ticks[n - 1]) && r in RouteSet(ticks[n - 1].next);
      }
    }
  }

  /** Whatever fails in whatever order, every route the client has installed, at any moment of any run
      and also between the commands of a reconcile, comes from a safe profile it was given by then. */
  lemma InstalledIsVouched(states: seq<State>, ticks: seq<Tick>, leftover: Routes, n: nat, x: Routes, r: Prefix)
    requires IsRun(states, ticks) && Begun(states[0], leftover)
    requires AtMoment(states, ticks, n, x) && r in x
    ensures r in leftover || Vouched(r, states[0].current, ticks, n + 1)
  {
    if r in states[n].installed {
      StateIsVouched(states, ticks, leftover, n, r);
    } else {
      assert Tried(ticks[n]) && r in RouteSet(ticks[n].next);
    }
  }

  /** So at no moment does the client route any other address into the tunnel. */
  lemma InstalledStaysInRange(states: seq<State>, ticks: seq<Tick>, leftover: Routes,
                              n: nat, x: Routes, r: Prefix, a: Addr)
    requires IsRun(states, ticks) && Begun(states[0], leftover)
    requires AtMoment(states, ticks, n, x) && r in x && r !in leftover && Covers(r, a)
    ensures InScenarios(a) || InSubnet(a)
  {
    InstalledIsVouched(states, ticks, leftover, n, x, r);
    if r in RouteSet(states[0].current) {
      RouteStaysInRange(states[0].current, r, a);
    } else {
      var i :| 0 <= i < n + 1 && i < |ticks| && Tried(ticks[i]) && r in RouteSet(ticks[i].next);
      TickStaysInRange(ticks[i], r, a);
    }
  }

  lemma TickStaysInRange(tick: Tick, r: Prefix, a: Addr)
    requires Tried(tick) && r in RouteSet(tick.next) && Covers(r, a)
    ensures InScenarios(a) || InSubnet(a)
  {
    RouteStaysInRange(tick.next, r, a);
  }

  lemma RouteStaysInRange(p: Profile, r: Prefix, a: Addr)
    requires Safe(p) && r in RouteSet(p) && Covers(r, a)
    ensures InScenarios(a) || InSubnet(a)
  {
    var route :| route in p.routes && route.cidr.V4? && route.cidr.prefix == r;
    assert RoutesTo(p, a);
    SafeStaysInRange(p, a);
  }

  /** A safe profile that differs from the current one in anything comes into force exactly when none of
      the routes it brings was refused and the resolver could be set; otherwise the old one stays. */
  lemma ComesIntoForceIff(s: State, tick: Tick, t: State)
    requires Polled(s, tick, t)
    ensures t.current == s.current || (tick.Fetched? && Safe(tick.next) && t.current == tick.next)
    ensures tick.Fetched? && Safe(tick.next) && tick.next != s.current ==>
              (t.current == tick.next <==>
                (RouteSet(tick.next) - RouteSet(s.current)) !! tick.f.refused && !tick.f.dnsFails)
  {
    if Acts(s, tick) {
      var added, ok :|
        && Reconciles(s.installed, RouteSet(s.current), RouteSet(tick.next), tick.f, added, t.installed, ok)
        && t.current == if ok then tick.next else s.current;
    }
  }

  // ---------- Drift and convergence ----------

  /** A tick after which the client still believes in the same profile: nothing was fetched, or nothing
      safe or new, or the try failed. */
  ghost predicate Stalled(s: State, tick: Tick, t: State) {
    Polled(s, tick, t) && t.current == s.current
  }

  /** The tick brought a profile the client may obey. */
  ghost predicate Tried(tick: Tick) {
    tick.Fetched? && Safe(tick.next)
  }

  ghost function AnyTarget(ticks: seq<Tick>): Routes {
    if ticks == [] then {}
    else
      var last := ticks[|ticks| - 1];
      AnyTarget(ticks[..|ticks| - 1]) + if Tried(last) then RouteSet(last.next) else {}
  }

  /** The routes of `within` that every target has. */
  ghost function EveryTarget(within: Routes, ticks: seq<Tick>): Routes {
    if ticks == [] then within
    else
      var last := ticks[|ticks| - 1];
      EveryTarget(within, ticks[..|ticks| - 1]) * if Tried(last) then RouteSet(last.next) else within
  }

  lemma StalledBounds(s: State, tick: Tick, t: State)
    requires Stalled(s, tick, t)
    ensures if !Tried(tick) then t.installed == s.installed
            else s.installed * RouteSet(tick.next) <= t.installed <= s.installed + RouteSet(tick.next)
  {
  }

  /** From a synchronised state, after any ticks that brought no new profile into force -- failed tries
      toward any targets, refused profiles, failed fetches -- the kernel still has every route that the
      current profile shares with all targets, and nothing outside the current profile and the targets. */
  lemma {:induction false} DriftBound(states: seq<State>, ticks: seq<Tick>)
    requires IsRun(states, ticks) && states[0].installed == RouteSet(states[0].current)
    requires forall i | 0 <= i < |ticks| :: Stalled(states[i], ticks[i], states[i + 1])
    ensures states[|ticks|].current == states[0].current
    ensures EveryTarget(RouteSet(states[0].current), ticks) <= states[|ticks|].installed
    ensures states[|ticks|].installed <= RouteSet(states[0].current) + AnyTarget(ticks)
    decreases |ticks|
  {
    var n, current := |ticks|, RouteSet(states[0].current);
    if n > 0 {
      assert IsRun(states[..n], ticks[..n - 1]);
      assert forall i | 0 <= i < n - 1 :: states[..n][i] == states[i] && ticks[..n - 1][i] == ticks[i];
      DriftBound(states[..n], ticks[..n - 1]);
      EveryTargetWithin(current, ticks[..n - 1]);
      DriftStep(current, EveryTarget(current, ticks[..n - 1]), AnyTarget(ticks[..n - 1]),
                states[n - 1], ticks[n - 1], states[n]);
    }
  }

  lemma DriftStep(current: Routes, every: Routes, any: Routes, s: State, tick: Tick, t: State)
    requires Stalled(s, tick, t) && every <= current && every <= s.installed <= current + any
    ensures every * (if Tried(tick) then RouteSet(tick.next) else current) <= t.installed
    ensures t.installed <= current + (any + if Tried(tick) then RouteSet(tick.next) else {})
  {
    StalledBounds(s, tick, t);
  }

  lemma {:induction false} EveryTargetWithin(within: Routes, ticks: seq<Tick>)
    ensures EveryTarget(within, ticks) <= within
    decreases |ticks|
  {
    if ticks != [] {
      EveryTargetWithin(within, ticks[..|ticks| - 1]);
    }
  }

  /** Exactly when a successful reconcile leaves the kernel with the new profile's routes: nothing was
      installed beyond the new routes and those it withdraws, and every route it leaves alone was there. */
  lemma ConvergesIff(before: Routes, previous: Routes, next: Routes, f: Faults, added: Routes, after: Routes)
    requires Reconciles(before, previous, next, f, added, after, true)
    ensures after == next <==> before <= next + (previous - f.stuck) && previous * next <= before
  {
    if after == next {
      forall r | r in before ensures r in next + (previous - f.stuck) { assert r in after || r !in after; }
      forall r | r in previous * next ensures r in before { assert r in after; }
    }
  }

  /** Failed tries toward one and the same target do no lasting harm, whatever failed in them: the first
      that succeeds leaves exactly the target's routes, if and only if none of the routes it had to
      withdraw and that were still there got stuck. */
  lemma SameTargetConverges(states: seq<State>, ticks: seq<Tick>, target: Profile, last: State, f: Faults)
    requires IsRun(states, ticks) && states[0].installed == RouteSet(states[0].current)
    requires forall i | 0 <= i < |ticks| ::
               Stalled(states[i], ticks[i], states[i + 1]) && (!Tried(ticks[i]) || ticks[i].next == target)
    requires Safe(target) && target != states[0].current
    requires Polled(states[|ticks|], Fetched(target, f), last) && last.current == target
    ensures last.installed == RouteSet(target) <==> (states[|ticks|].installed - RouteSet(target)) * f.stuck == {}
  {
    DriftBound(states, ticks);
    forall i | 0 <= i < |ticks|
      ensures !Tried(ticks[i]) || ticks[i].next == target
    {
      assert Stalled(states[i], ticks[i], states[i + 1]);
    }
    OneTarget(RouteSet(states[0].current), ticks, target);
    var s := states[|ticks|];
    var added, ok :|
      && Reconciles(s.installed, RouteSet(s.current), RouteSet(target), f, added, last.installed, ok)
      && last.current == if ok then target else s.current;
    ConvergesIff(s.installed, RouteSet(s.current), RouteSet(target), f, added, last.installed);
    StrayIff(s.installed, RouteSet(s.current), RouteSet(target), f.stuck);
  }

  lemma StrayIff(installed: Routes, previous: Routes, next: Routes, stuck: Routes)
    requires installed <= previous + next
    ensures installed <= next + (previous - stuck) <==> (installed - next) * stuck == {}
  {
    if (installed - next) * stuck != {} {
      var r :| r in (installed - next) * stuck;
      assert r in installed && r !in next + (previous - stuck);
    } else {
      forall r | r in installed
        ensures r in next + (previous - stuck)
      {
        assert r !in next && r in stuck ==> r in (installed - next) * stuck;
      }
    }
  }

  lemma {:induction false} OneTarget(within: Routes, ticks: seq<Tick>, target: Profile)
    requires forall i | 0 <= i < |ticks| :: !Tried(ticks[i]) || ticks[i].next == target
    ensures AnyTarget(ticks) <= RouteSet(target)
    ensures within * RouteSet(target) <= EveryTarget(within, ticks)
    decreases |ticks|
  {
    if ticks != [] {
      OneTarget(within, ticks[..|ticks| - 1], target);
    }
  }

  /** A first try from a synchronised state, failed or not, leaves only routes of the new profile exactly
      when no route it had to withdraw got stuck: withdrawals come first. */
  lemma TryNarrowsIff(s: State, tick: Tick, t: State)
    requires s.installed == RouteSet(s.current) && Acts(s, tick) && Polled(s, tick, t)
    ensures t.installed <= RouteSet(tick.next) <==> (RouteSet(s.current) - RouteSet(tick.next)) * tick.f.stuck == {}
    ensures RouteSet(s.current) * RouteSet(tick.next) <= t.installed
  {
    NarrowsIff(RouteSet(s.current), RouteSet(tick.next), tick.f.stuck, t.installed);
  }

  lemma NarrowsIff(before: Routes, next: Routes, stuck: Routes, after: Routes)
    requires before - (before - next - stuck) <= after <= before - (before - next - stuck) + next
    ensures after <= next <==> (before - next) * stuck == {}
  {
    var kept := before - (before - next - stuck);
    assert kept - next == (before - next) * stuck;
    assert after - next == kept - next;
    SubsetIff(after, next);
  }

  lemma SubsetIff(a: Routes, b: Routes)
    ensures a <= b <==> a - b == {}
  {
    if a - b == {} {
      forall r | r in a ensures r in b { assert r in b || r in a - b; }
    }
  }

  /** So a failed first try whose withdrawals work has narrowed access. */
  lemma FailedTryNarrows(s: State, tick: Tick, t: State)
    requires s.installed == RouteSet(s.current) && Acts(s, tick) && Stalled(s, tick, t) && tick.f.stuck == {}
    ensures RouteSet(s.current) * RouteSet(tick.next) <= t.installed <= RouteSet(tick.next)
  {
    TryNarrowsIff(s, tick, t);
    NothingStuck(RouteSet(s.current) - RouteSet(tick.next), tick.f.stuck);
  }

  lemma NothingStuck(dropped: Routes, stuck: Routes)
    requires stuck == {}
    ensures dropped * stuck == {}
  {
  }

  /** When the target changes between tries, success does not mean synchronised. From a synchronised
      state with routes {resolver, a}, a try toward {resolver, b, c} that fails at c and then a faultless
      success toward {resolver, a, d} leave b behind and a missing. */
  lemma ChangedTargetDiverges(p: Profile, q: Profile, r: Profile, a: Prefix, b: Prefix, c: Prefix, d: Prefix)
    returns (first: Tick, mid: State, last: State)
    requires Safe(q) && Safe(r) && a !in {b, c, d, RESOLVER} && b !in {c, d, RESOLVER}
    requires c !in {d, RESOLVER} && d != RESOLVER
    requires RouteSet(p) == {RESOLVER, a} && RouteSet(q) == {RESOLVER, b, c} && RouteSet(r) == {RESOLVER, a, d}
    ensures first.Fetched? && first.next == q && first.f.stuck == {}
    ensures Polled(State(p, RouteSet(p)), first, mid) && mid.current == p
    ensures Polled(mid, Fetched(r, Faults({}, {}, false)), last) && last.current == r
    ensures last.installed == {RESOLVER, b, d} && last.installed != RouteSet(r)
  {
    var f := Faults({}, {c}, false);
    first := Fetched(q, f);
    mid := State(p, {RESOLVER, b});
    last := State(r, {RESOLVER, b, d});
    assert RouteSet(q) - RouteSet(p) == {b, c} && c in {b, c} * f.refused;
    assert RouteSet(p) - RouteSet(q) == {a} && RouteSet(p) - {a} + {b} == mid.installed;
    assert Reconciles(RouteSet(p), RouteSet(p), RouteSet(q), f, {b}, mid.installed, false);
    assert RouteSet(r) - RouteSet(p) == {d} && RouteSet(p) - RouteSet(r) == {};
    assert Reconciles(mid.installed, RouteSet(p), RouteSet(r), Faults({}, {}, false), {d}, last.installed, true);
    assert a in RouteSet(r);
  }

  function ScenarioHost(n: nat): Prefix
    requires n < 256
  {
    Ipv4.Cidr(Ten(128, 0, n), 32)
  }

  ghost predicate IsHost(h: Prefix) {
    exists n: nat :: n < 256 && h == ScenarioHost(n)
  }

  /** The profile that routes the resolver and these scenario hosts. */
  function HostsProfile(hosts: seq<Prefix>): Profile {
    Profile(1,
            [Route(V4(RESOLVER), "resolver", "")]
              + seq(|hosts|, i requires 0 <= i < |hosts| => Route(V4(hosts[i]), "scenario", "")),
            Dns([RESOLVER_IP], true))
  }

  lemma HostsProfileRoutes(hosts: seq<Prefix>)
    ensures RouteSet(HostsProfile(hosts)) == {RESOLVER} + set h | h in hosts
  {
    var routes := HostsProfile(hosts).routes;
    forall h | h in hosts ensures h in RouteSet(HostsProfile(hosts)) {
      var i :| 0 <= i < |hosts| && hosts[i] == h;
      assert routes[i + 1].cidr == V4(h);
    }
    assert routes[0].cidr == V4(RESOLVER);
  }

  lemma HostInScenarios(n: nat)
    requires n < 256
    ensures Covers(SCENARIOS, Ten(128, 0, n)) && Masked(ScenarioHost(n)) && ScenarioHost(n) != RESOLVER
  {
    assert Ten(128, 0, n) == 0xA80_0000 + n && Size(ScenarioHost(n)) == 1;
    assert Size(SCENARIOS) == 0x1_0000 by { Pow2Values(); }
    assert (0xA80_0000 + n) / 0x1_0000 == 0xA80;
  }

  lemma HostAuthorized(r: Route, n: nat)
    requires n < 256 && r.cidr == V4(ScenarioHost(n)) && r.kind == "scenario"
    ensures Authorized(r) && ScenarioHost(n) != RESOLVER
  {
    HostInScenarios(n);
    RouteChecked(r);
  }

  lemma HostsProfileSafe(hosts: seq<Prefix>)
    requires |hosts| < MAX_ROUTES
    requires forall h | h in hosts :: IsHost(h)
    requires forall i, j | 0 <= i < j < |hosts| :: hosts[i] != hosts[j]
    ensures Safe(HostsProfile(hosts))
  {
    var routes := HostsProfile(hosts).routes;
    forall i | 0 <= i < |routes|
      ensures Authorized(routes[i])
      ensures i > 0 ==> routes[i].cidr != V4(RESOLVER)
    {
      if i > 0 {
        assert hosts[i - 1] in hosts;
        var n: nat :| n < 256 && hosts[i - 1] == ScenarioHost(n);
        HostAuthorized(routes[i], n);
      } else {
        RouteChecked(routes[0]);
        Pow2Values();
      }
    }
    assert routes[0] in routes;
  }

  lemma ProfileOf(hosts: seq<Prefix>) returns (p: Profile)
    requires |hosts| < MAX_ROUTES
    requires forall h | h in hosts :: IsHost(h)
    requires forall i, j | 0 <= i < j < |hosts| :: hosts[i] != hosts[j]
    ensures Safe(p) && RouteSet(p) == {RESOLVER} + set h | h in hosts
  {
    p := HostsProfile(hosts);
    HostsProfileSafe(hosts);
    HostsProfileRoutes(hosts);
  }

  lemma ProfilesOf(a: Prefix, b: Prefix, c: Prefix, d: Prefix) returns (p: Profile, q: Profile, r: Profile)
    requires a != d && b != c
    requires forall h | h in {a, b, c, d} :: IsHost(h)
    ensures Safe(p) && Safe(q) && Safe(r)
    ensures RouteSet(p) == {RESOLVER, a} && RouteSet(q) == {RESOLVER, b, c} && RouteSet(r) == {RESOLVER, a, d}
  {
    p := ProfileOfTwo(a, a);
    q := ProfileOfTwo(b, c);
    r := ProfileOfTwo(a, d);
  }

  lemma ProfileOfTwo(a: Prefix, b: Prefix) returns (p: Profile)
    requires IsHost(a) && IsHost(b)
    ensures Safe(p) && RouteSet(p) == {RESOLVER, a, b}
  {
    var hosts := if a == b then [a] else [a, b];
    assert forall h :: h in hosts <==> h == a || h == b;
    p := ProfileOf(hosts);
    assert {RESOLVER} + (set h | h in hosts) == {RESOLVER, a, b};
  }

  /** Such profiles exist: the validator accepts profiles with exactly such route sets. */
  lemma DivergingProfiles() returns (p: Profile, q: Profile, r: Profile, first: Tick, mid: State, last: State)
    ensures Safe(p) && Safe(q) && Safe(r)
    ensures Polled(State(p, RouteSet(p)), first, mid) && mid.current == p
    ensures first.Fetched? && first.next == q && first.f.stuck == {}
    ensures Polled(mid, Fetched(r, Faults({}, {}, false)), last) && last.current == r
    ensures last.installed - RouteSet(r) != {} && RouteSet(r) - last.installed != {}
  {
    var a, b, c, d := ScenarioHost(1), ScenarioHost(2), ScenarioHost(3), ScenarioHost(4);
    p, q, r := ProfilesOf(a, b, c, d);
    first, mid, last := ChangedTargetDiverges(p, q, r, a, b, c, d);
    assert b in last.installed - RouteSet(r) && a in RouteSet(r) - last.installed;
  }
}
