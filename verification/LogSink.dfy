/** The size-rotated log sink of client/logsink.go.

    Slot 0 is the live file; slot i >= 1 is the archive "<path>.i". Every file-system call may fail,
    and a fault script says which ones do. `hist` is the history of every byte that ever reached a
    log file; only proofs look at it. */
module LogSink {
  import opened Basics

  type Files = map<nat, Bytes>

  /** How a rename treats an existing destination. */
  datatype Platform = Posix | Windows

  datatype Config = Config(platform: Platform, maxSize: nat, keep: nat)

  /** The three ways OpenFile followed by Stat can end. */
  datatype OpenResult = OpenFails | StatFails | Opened

  /** What goes wrong during one Write: removing the oldest archive, renaming out of some slots,
      reopening the live file, and how many bytes the final write accepts. */
  datatype Faults = Faults(removeFails: bool, renameFails: set<nat>, reopen: OpenResult, accepted: nat)

  datatype RenameResult = Renamed | NoSource | Refused

  datatype Sink = Sink(files: Files, open: bool, n: nat, hist: Bytes)

  function Get(files: Files, slot: nat): Bytes {
    if slot in files then files[slot] else []
  }

  // ---------- The operations, as functions of the state and the fault script ----------

  function Rename(platform: Platform, files: Files, src: nat, dst: nat, fails: bool): (Files, RenameResult) {
    if fails then (files, Refused)
    else if src !in files then (files, NoSource)
    else if platform.Windows? && dst in files then (files, Refused)
    else ((files - {src})[dst := files[src]], Renamed)
  }

  /** Shifts slots i, i-1, ..., 1 up by one, then archives the live file. */
  function ShiftFrom(platform: Platform, files: Files, i: nat, failing: set<nat>): (Files, bool)
    decreases i
  {
    var (after, r) := Rename(platform, files, i, i + 1, i in failing);
    if i == 0 then (after, r.Renamed?)
    else if r.Refused? then (after, false)
    else ShiftFrom(platform, after, i - 1, failing)
  }

  function Rotated(c: Config, files: Files, f: Faults): (Files, bool)
    requires c.keep >= 1
  {
    if f.removeFails then (files, false)
    else ShiftFrom(c.platform, files - {c.keep}, c.keep - 1, f.renameFails)
  }

  function Reopened(s: Sink, truncate: bool, r: OpenResult): Sink {
    if r.OpenFails? then s
    else
      var files := if truncate || 0 !in s.files then s.files[0 := []] else s.files;
      if r.StatFails? then s.(files := files)
      else s.(files := files, open := true, n := |files[0]|)
  }

  function Appended(s: Sink, p: Bytes, accepted: nat): (Sink, nat) {
    if !s.open || 0 !in s.files then (s, 0)
    else
      var k := if accepted < |p| then accepted else |p|;
      (s.(files := s.files[0 := s.files[0] + p[..k]], n := s.n + k, hist := s.hist + p[..k]), k)
  }

  function Written(c: Config, s: Sink, p: Bytes, f: Faults): (Sink, nat)
    requires c.keep >= 1
  {
    if s.n + |p| > c.maxSize then
      var (files, ok) := Rotated(c, s.files, f);
      var reopened := Reopened(s.(files := files, open := false), !ok, f.reopen);
      if reopened.open then Appended(reopened, p, f.accepted) else (reopened, 0)
    else Appended(s, p, f.accepted)
  }

  /** What newRotatingSink can meet: an unprotected directory, an unreadable stat of the live file,
      an open that fails, a live file it cannot protect, and a clean-up that fails. */
  datatype Startup = Startup(dirUnsafe: bool, statUnknown: bool, open: OpenResult, fileUnsafe: bool, cleanupFails: bool)

  function Started(s: Sink, u: Startup): Sink {
    var closed := s.(open := false);
    if u.dirUnsafe then closed
    else
      var createdByUs := 0 !in s.files && !u.statUnknown;
      var reopened := Reopened(closed, false, u.open);
      if !reopened.open || !u.fileUnsafe then reopened
      else if createdByUs && !u.cleanupFails then reopened.(open := false, files := reopened.files - {0})
      else reopened.(open := false)
  }

  // ---------- The sink itself ----------

  class RotatingSink {
    const config: Config
    var files: Files
    var open: bool
    var n: nat
    ghost var hist: Bytes

    ghost function State(): Sink
      reads this
    {
      Sink(files, open, n, hist)
    }

    /** newRotatingSink over the files a previous process left behind. */
    constructor (config: Config, files: Files, ghost hist: Bytes, u: Startup)
      ensures this.config == config
      ensures State() == Started(Sink(files, false, 0, hist), u)
    {
      this.config := config;
      this.files, this.hist := files, hist;
      open, n := false, 0;
      new;
      if !u.dirUnsafe {
        var createdByUs := 0 !in files && !u.statUnknown;
        Reopen(false, u.open);
        if open && u.fileUnsafe {
          open := false;
          if createdByUs && !u.cleanupFails {
            this.files := this.files - {0};
          }
        }
      }
    }

    method Move(src: nat, dst: nat, fails: bool) returns (r: RenameResult)
      modifies this`files
      ensures (files, r) == Rename(config.platform, old(files), src, dst, fails)
    {
      if fails {
        r := Refused;
      } else if src !in files {
        r := NoSource;
      } else if config.platform.Windows? && dst in files {
        r := Refused;
      } else {
        files := (files - {src})[dst := files[src]];
        r := Renamed;
      }
    }

    method Rotate(f: Faults) returns (ok: bool)
      requires config.keep >= 1
      modifies this`files
      ensures (files, ok) == Rotated(config, old(files), f)
    {
      if f.removeFails {
        return false;
      }
      files := files - {config.keep};
      var i := config.keep - 1;
      while i >= 1
        invariant 0 <= i
        invariant ShiftFrom(config.platform, files, i, f.renameFails) == Rotated(config, old(files), f)
      {
        var r := Move(i, i + 1, i in f.renameFails);
        if r.Refused? {
          return false;
        }
        i := i - 1;
      }
      var r := Move(0, 1, 0 in f.renameFails);
      ok := r.Renamed?;
    }

    method Reopen(truncate: bool, r: OpenResult)
      modifies this
      ensures State() == Reopened(old(State()), truncate, r)
    {
      if r.OpenFails? {
        return;
      }
      if truncate || 0 !in files {
        files := files[0 := []];
      }
      if r.Opened? {
        open, n := true, |files[0]|;
      }
    }

    method Write(p: Bytes, f: Faults) returns (k: nat)
      requires config.keep >= 1
      modifies this
      ensures (State(), k) == Written(config, old(State()), p, f)
    {
      if n + |p| > config.maxSize {
        open := false;
        var ok := Rotate(f);
        Reopen(!ok, f.reopen);
        if !open {
          return 0;
        }
      }
      if !open || 0 !in files {
        return 0;
      }
      k := if f.accepted < |p| then f.accepted else |p|;
      files := files[0 := files[0] + p[..k]];
      n := n + k;
      hist := hist + p[..k];
    }
  }

  // ---------- What a rotation does to the file set ----------

  /** The slot whose file ends up in slot s when slots hole..keep-1 move up by one. */
  function Origin(s: nat, keep: nat, hole: nat): nat {
    if s < hole || s > keep || s == 0 then s else s - 1
  }

  /** The file set after slots hole..keep-1 moved up by one: slot `hole` is now empty. */
  ghost predicate ShiftedAbove(before: Files, after: Files, keep: nat, hole: nat) {
    && (forall s: nat {:trigger s in after} :: s in after <==> s != hole && Origin(s, keep, hole) in before)
    && (forall s: nat {:trigger after[s]} | s in after :: after[s] == before[Origin(s, keep, hole)])
  }

  /** The slot whose rename stops the shift: the highest faulty one at or below i, else -1. */
  function StopSlot(i: int, failing: set<nat>): (k: int)
    requires i >= -1
    ensures -1 <= k <= i
    ensures k >= 0 ==> k in failing
    ensures forall j: nat :: k < j <= i ==> j !in failing
    decreases i + 1
  {
    if i == -1 then -1 else if i in failing then i else StopSlot(i - 1, failing)
  }

  lemma MoveShape(platform: Platform, before: Files, files: Files, i: nat, keep: nat)
    requires i < keep
    requires ShiftedAbove(before, files, keep, i + 1)
    ensures var (after, r) := Rename(platform, files, i, i + 1, false);
            ShiftedAbove(before, after, keep, i) && !r.Refused? && (r.Renamed? <==> i in before)
  {
    assert i + 1 !in files;
    assert i in files <==> i in before;
    var after := Rename(platform, files, i, i + 1, false).0;
    forall s: nat
      ensures s in after <==> s != i && Origin(s, keep, i) in before
    {
      assert s in files <==> s != i + 1 && Origin(s, keep, i + 1) in before;
    }
  }

  lemma {:induction false} ShiftShape(platform: Platform, before: Files, files: Files,
                                      i: nat, keep: nat, failing: set<nat>)
    requires i < keep
    requires ShiftedAbove(before, files, keep, i + 1)
    ensures var (after, ok) := ShiftFrom(platform, files, i, failing);
            var k := StopSlot(i, failing);
            ShiftedAbove(before, after, keep, k + 1) && (ok <==> k == -1 && 0 in before)
    decreases i
  {
    if i !in failing {
      MoveShape(platform, before, files, i, keep);
      if i > 0 {
        ShiftShape(platform, before, Rename(platform, files, i, i + 1, false).0, i - 1, keep, failing);
      }
    }
  }

  lemma {:induction false} ShiftSamePlatform(files: Files, i: nat, failing: set<nat>)
    requires i + 1 !in files
    ensures ShiftFrom(Windows, files, i, failing) == ShiftFrom(Posix, files, i, failing)
    decreases i
  {
    if i > 0 && !Rename(Posix, files, i, i + 1, i in failing).1.Refused? {
      ShiftSamePlatform(Rename(Posix, files, i, i + 1, i in failing).0, i - 1, failing);
    }
  }

  /** Every rotation, whatever fails in it and whatever gaps the file set has, leaves slots below the
      failure alone, moves the others up by one and loses at most the oldest archive. It succeeds
      exactly when nothing failed and there was a live file to archive. */
  lemma RotateShape(c: Config, files: Files, f: Faults)
    requires c.keep >= 1
    ensures var (after, ok) := Rotated(c, files, f);
            var k := StopSlot(c.keep - 1, f.renameFails);
            && (if f.removeFails then after == files else ShiftedAbove(files, after, c.keep, k + 1))
            && (ok <==> !f.removeFails && k == -1 && 0 in files)
  {
    if !f.removeFails {
      assert ShiftedAbove(files, files - {c.keep}, c.keep, c.keep);
      ShiftShape(c.platform, files, files - {c.keep}, c.keep - 1, c.keep, f.renameFails);
    }
  }

  /** No rename of a rotation ever finds its destination taken. */
  ghost predicate NoClobber(platform: Platform, files: Files, i: nat, failing: set<nat>)
    decreases i
  {
    && (i in files ==> i + 1 !in files)
    && (i > 0 && !Rename(platform, files, i, i + 1, i in failing).1.Refused? ==>
      NoClobber(platform, Rename(platform, files, i, i + 1, i in failing).0, i - 1, failing))
  }

  lemma {:induction false} ShiftNeverClobbers(platform: Platform, files: Files, i: nat, failing: set<nat>)
    requires i + 1 !in files
    ensures NoClobber(platform, files, i, failing)
    decreases i
  {
    var (after, r) := Rename(platform, files, i, i + 1, i in failing);
    if i > 0 && !r.Refused? {
      ShiftNeverClobbers(platform, after, i - 1, failing);
    }
  }

  /** In a rotation no rename finds its destination taken, from any file set and after any earlier
      failure, so it gives the same answer whether or not rename replaces an existing file. */
  lemma RotatePortable(c: Config, files: Files, f: Faults)
    requires c.keep >= 1
    ensures NoClobber(c.platform, files - {c.keep}, c.keep - 1, f.renameFails)
    ensures Rotated(c.(platform := Windows), files, f) == Rotated(c.(platform := Posix), files, f)
  {
    ShiftNeverClobbers(c.platform, files - {c.keep}, c.keep - 1, f.renameFails);
    ShiftSamePlatform(files - {c.keep}, c.keep - 1, f.renameFails);
  }

  // ---------- Order and contiguity over every run ----------

  ghost predicate Holds(hist: Bytes, at: nat, bytes: Bytes) {
    at + |bytes| <= |hist| && hist[at..at + |bytes|] == bytes
  }

  /** File s is the interval of the history that begins at start[s], and files further from live hold
      older bytes. The live file, if any, ends where the history ends. */
  ghost predicate Placed(files: Files, hist: Bytes, start: map<nat, nat>) {
    && files.Keys <= start.Keys
    && (forall s {:trigger files[s]} | s in files :: Holds(hist, start[s], files[s]))
    && (forall s, t {:trigger files[s], files[t]} | s in files && t in files && s < t ::
          start[t] + |files[t]| <= start[s])
    && (0 in files ==> start[0] + |files[0]| == |hist|)
  }

  ghost predicate Ordered(files: Files, hist: Bytes) {
    exists start: map<nat, nat> :: Placed(files, hist, start)
  }

  /** While the handle is open, the size counter is the live file's size. */
  ghost predicate Synced(s: Sink) {
    s.open ==> 0 in s.files && s.n == |s.files[0]|
  }

  ghost predicate Inv(s: Sink) {
    Ordered(s.files, s.hist) && Synced(s)
  }

  lemma ShiftKeepsOrder(before: Files, after: Files, keep: nat, hole: nat, hist: Bytes)
    requires Ordered(before, hist) && hole <= keep
    requires ShiftedAbove(before, after, keep, hole)
    ensures Ordered(after, hist)
  {
    var start :| Placed(before, hist, start);
    var moved := map s | s in after :: start[Origin(s, keep, hole)];
    forall s, t | s in after && t in after && s < t
      ensures moved[t] + |after[t]| <= moved[s]
    {
      assert before[Origin(s, keep, hole)] == after[s] && before[Origin(t, keep, hole)] == after[t];
    }
    assert Placed(after, hist, moved);
  }

  /** An empty live file is in order at the end of any history. */
  lemma EmptyLiveKeepsOrder(files: Files, hist: Bytes)
    requires Ordered(files, hist)
    ensures Ordered(files[0 := []], hist)
  {
    var start :| Placed(files, hist, start);
    var after, start' := files[0 := []], start[0 := |hist|];
    forall s | s in after
      ensures Holds(hist, start'[s], after[s])
    {
      if s != 0 {
        assert after[s] == files[s];
      }
    }
    forall s, t | s in after && t in after && s < t
      ensures start'[t] + |after[t]| <= start'[s]
    {
      assert after[t] == files[t] && Holds(hist, start[t], files[t]);
      if s != 0 {
        assert after[s] == files[s];
      }
    }
    assert Placed(after, hist, start');
  }

  lemma ReopenKeepsInv(s: Sink, truncate: bool, r: OpenResult)
    requires Inv(s) && !s.open
    ensures Inv(Reopened(s, truncate, r))
  {
    EmptyLiveKeepsOrder(s.files, s.hist);
  }

  lemma HoldsExtended(hist: Bytes, more: Bytes, at: nat, bytes: Bytes)
    requires Holds(hist, at, bytes)
    ensures Holds(hist + more, at, bytes)
    ensures at + |bytes| == |hist| ==> Holds(hist + more, at, bytes + more)
  {
    assert (hist + more)[at..at + |bytes|] == hist[at..at + |bytes|];
  }

  lemma AppendKeepsInv(s: Sink, p: Bytes, accepted: nat)
    requires Inv(s)
    ensures Inv(Appended(s, p, accepted).0)
  {
    if s.open && 0 in s.files {
      GrownLiveKeepsOrder(s.files, s.hist, p[..if accepted < |p| then accepted else |p|]);
    }
  }

  /** Bytes appended to the live file and to the history keep the files in order. */
  lemma GrownLiveKeepsOrder(files: Files, hist: Bytes, more: Bytes)
    requires Ordered(files, hist) && 0 in files
    ensures Ordered(files[0 := files[0] + more], hist + more)
  {
    var start :| Placed(files, hist, start);
    var after := files[0 := files[0] + more];
    forall i | i in after
      ensures Holds(hist + more, start[i], after[i])
    {
      assert Holds(hist, start[i], files[i]);
      HoldsExtended(hist, more, start[i], files[i]);
    }
    forall s, t | s in after && t in after && s < t
      ensures start[t] + |after[t]| <= start[s]
    {
      assert after[t] == files[t] && files[s] == files[s];
    }
    assert Placed(after, hist + more, start);
  }

  /** Whatever fails, the history grows by exactly the bytes a write reports as accepted. */
  lemma WriteCountsBytes(c: Config, s: Sink, p: Bytes, f: Faults)
    requires c.keep >= 1
    ensures var (t, k) := Written(c, s, p, f);
            k <= |p| && t.hist == s.hist + p[..k] && (k > 0 ==> t.open)
  {
    assert s.hist + p[..0] == s.hist;
  }

  lemma WriteKeepsInv(c: Config, s: Sink, p: Bytes, f: Faults)
    requires c.keep >= 1 && Inv(s)
    ensures Inv(Written(c, s, p, f).0)
  {
    if s.n + |p| > c.maxSize {
      var (files, ok) := Rotated(c, s.files, f);
      RotateShape(c, s.files, f);
      if !f.removeFails {
        ShiftKeepsOrder(s.files, files, c.keep, StopSlot(c.keep - 1, f.renameFails) + 1, s.hist);
      }
      var closed := s.(files := files, open := false);
      ReopenKeepsInv(closed, !ok, f.reopen);
      AppendKeepsInv(Reopened(closed, !ok, f.reopen), p, f.accepted);
    } else {
      AppendKeepsInv(s, p, f.accepted);
    }
  }

  lemma StartKeepsInv(s: Sink, u: Startup)
    requires Inv(s)
    ensures Inv(Started(s, u))
  {
    var closed := s.(open := false);
    ReopenKeepsInv(closed, false, u.open);
    var reopened := Reopened(closed, false, u.open);
    var start :| Placed(reopened.files, reopened.hist, start);
    assert Placed(reopened.files - {0}, reopened.hist, start);
  }

  /** One step of a machine's life: a write, a close, or a (possibly failing) process start. A start
      that fails leaves no sink; letting later writes reach one anyway only adds runs. */
  datatype Event = Write(p: Bytes, f: Faults) | Close | Start(u: Startup)

  function After(c: Config, s: Sink, e: Event): Sink
    requires c.keep >= 1
  {
    match e
    case Write(p, f) => Written(c, s, p, f).0
    case Close => s.(open := false)
    case Start(u) => Started(s, u)
  }

  function Run(c: Config, s: Sink, events: seq<Event>): Sink
    requires c.keep >= 1
    decreases |events|
  {
    if events == [] then s
    else Run(c, After(c, s, events[0]), events[1..])
  }

  /** Logs may be lost, but no run reorders, duplicates or splices them. */
  lemma {:induction false} RunKeepsOrder(c: Config, s: Sink, events: seq<Event>)
    requires c.keep >= 1 && Inv(s)
    ensures Inv(Run(c, s, events))
    decreases |events|
  {
    if events != [] {
      match events[0]
      case Write(p, f) =>
        WriteKeepsInv(c, s, p, f);
        RunKeepsOrder(c, Written(c, s, p, f).0, events[1..]);
      case Close =>
        RunKeepsOrder(c, s.(open := false), events[1..]);
      case Start(u) =>
        StartKeepsInv(s, u);
        RunKeepsOrder(c, Started(s, u), events[1..]);
    }
  }

  /** The files of slots r, r-1, ..., 0 joined, oldest first. */
  function Joined(files: Files, r: nat): Bytes {
    if r == 0 then Get(files, 0) else Get(files, r) + Joined(files, r - 1)
  }

  lemma {:induction false} JoinedSuffix(files: Files, s: nat, r: nat)
    requires s <= r
    ensures |Joined(files, s)| <= |Joined(files, r)|
    ensures Joined(files, r)[|Joined(files, r)| - |Joined(files, s)|..] == Joined(files, s)
  {
    if s < r {
      JoinedSuffix(files, s, r - 1);
      var d := |Joined(files, r - 1)| - |Joined(files, s)|;
      assert Joined(files, r)[|Get(files, r)| + d..] == Joined(files, r - 1)[d..];
    }
  }

  function JoinedStart(files: Files, s: nat, r: nat): (at: nat)
    requires s <= r
  {
    JoinedSuffix(files, s, r);
    |Joined(files, r)| - |Joined(files, s)|
  }

  lemma {:induction false} JoinedHolds(files: Files, s: nat, r: nat)
    requires s <= r
    ensures Holds(Joined(files, r), JoinedStart(files, s, r), Get(files, s))
  {
    JoinedSuffix(files, s, r);
    var hist, d := Joined(files, r), JoinedStart(files, s, r);
    assert hist[d..d + |Get(files, s)|] == hist[d..][..|Get(files, s)|];
  }

  lemma {:induction false} JoinedGap(files: Files, s: nat, t: nat)
    requires s < t
    ensures |Get(files, t)| + |Joined(files, s)| <= |Joined(files, t)|
  {
    JoinedSuffix(files, s, t - 1);
  }

  /** Any file set at all is a legal starting point: it is ordered with respect to the history that
      its own files, joined oldest first, make up. */
  lemma {:induction false} AnyFilesAreOrdered(files: Files, r: nat)
    requires forall s | s in files :: s <= r
    ensures Ordered(files, Joined(files, r))
  {
    var hist := Joined(files, r);
    var start := map s | s in files :: JoinedStart(files, s, r);
    forall s | s in files
      ensures Holds(hist, start[s], files[s])
    {
      JoinedHolds(files, s, r);
    }
    forall s, t | s in files && t in files && s < t
      ensures start[t] + |files[t]| <= start[s]
    {
      JoinedGap(files, s, t);
    }
    assert Placed(files, hist, start);
  }

  // ---------- What a faulty write may lose ----------

  /** Whatever fails, a file survives a write whole, in its slot or the next one, unless it fell off
      slot keep, or it was the live file and a failed rotation truncated it. */
  lemma OnlyOldestOrLiveIsLost(c: Config, s: Sink, p: Bytes, f: Faults, slot: nat)
    requires c.keep >= 1 && Synced(s) && slot in s.files
    requires var rotates := s.n + |p| > c.maxSize;
             && !(slot == c.keep && rotates && !f.removeFails)
             && !(slot == 0 && rotates && !Rotated(c, s.files, f).1 && !f.reopen.OpenFails?)
    ensures var t := Written(c, s, p, f).0;
            exists to :: slot <= to <= slot + 1 && to in t.files && s.files[slot] <= t.files[to]
  {
    var t := Written(c, s, p, f).0;
    if s.n + |p| > c.maxSize && !f.removeFails {
      RotateShape(c, s.files, f);
      var hole := StopSlot(c.keep - 1, f.renameFails) + 1;
      var to := if slot < hole || slot > c.keep then slot else slot + 1;
      assert Origin(to, c.keep, hole) == slot;
      var files := Rotated(c, s.files, f).0;
      assert to in files && files[to] == s.files[slot];
      assert to in t.files && s.files[slot] <= t.files[to];
    } else {
      assert slot in t.files && s.files[slot] <= t.files[slot];
    }
  }

  // ---------- Size bound ----------

  ghost predicate Bounded(files: Files, keep: nat, bound: nat) {
    forall s | s in files :: s <= keep && |files[s]| <= bound
  }

  /** Whatever fails, no file outgrows the larger of maxSize and the longest single write, and no
      slot beyond keep appears. */
  lemma WriteKeepsBound(c: Config, s: Sink, p: Bytes, f: Faults, bound: nat)
    requires c.keep >= 1 && Synced(s) && c.maxSize <= bound && |p| <= bound
    requires Bounded(s.files, c.keep, bound)
    ensures Bounded(Written(c, s, p, f).0.files, c.keep, bound)
    ensures Synced(Written(c, s, p, f).0)
  {
    RotateShape(c, s.files, f);
  }

  ghost predicate WritesAtMost(events: seq<Event>, bound: nat) {
    forall e | e in events && e.Write? :: |e.p| <= bound
  }

  lemma {:induction false} RunKeepsBound(c: Config, s: Sink, events: seq<Event>, bound: nat)
    requires c.keep >= 1 && Synced(s) && c.maxSize <= bound && WritesAtMost(events, bound)
    requires Bounded(s.files, c.keep, bound)
    ensures Bounded(Run(c, s, events).files, c.keep, bound)
    decreases |events|
  {
    if events != [] {
      assert events[0] in events;
      match events[0]
      case Write(p, f) =>
        WriteKeepsBound(c, s, p, f, bound);
        RunKeepsBound(c, Written(c, s, p, f).0, events[1..], bound);
      case Close =>
        RunKeepsBound(c, s.(open := false), events[1..], bound);
      case Start(u) =>
        RunKeepsBound(c, Started(s, u), events[1..], bound);
    }
  }

  // ---------- What is retained when nothing fails ----------

  ghost predicate NoFaults(p: Bytes, f: Faults) {
    !f.removeFails && f.renameFails == {} && f.reopen.Opened? && f.accepted >= |p|
  }

  /** Slots i and i+1 together hold more than maxSize bytes. */
  ghost predicate Neighbours(files: Files, i: nat, maxSize: nat) {
    |Get(files, i)| + |Get(files, i + 1)| > maxSize
  }

  ghost predicate Fills(files: Files, r: nat) {
    forall i: nat {:trigger i in files} :: i in files <==> i <= r
  }

  ghost predicate IsSuffix(part: Bytes, hist: Bytes) {
    |part| <= |hist| && hist[|hist| - |part|..] == part
  }

  /** Slots 0..r and no others exist, they hold a suffix of the history, and every two neighbours
      together hold more than maxSize bytes. */
  ghost predicate Retains(c: Config, s: Sink, r: nat) {
    && s.open && s.n == |Get(s.files, 0)|
    && r <= c.keep
    && Fills(s.files, r)
    && IsSuffix(Joined(s.files, r), s.hist)
    && (forall i: nat | i < r :: Neighbours(s.files, i, c.maxSize))
  }

  lemma Unit(a: Bytes)
    ensures [] + a == a
  {
  }

  lemma Assoc(a: Bytes, b: Bytes, c: Bytes)
    ensures a + (b + c) == (a + b) + c
  {
  }

  lemma {:induction false} JoinedShift(before: Files, after: Files, r: nat)
    requires forall i: nat {:trigger Get(after, i)} | 1 <= i <= r + 1 :: Get(after, i) == Get(before, i - 1)
    ensures Joined(after, r + 1) == Joined(before, r) + Get(after, 0)
  {
    if r == 0 {
      assert Joined(after, 1) == Get(after, 1) + Joined(after, 0);
    } else {
      JoinedShift(before, after, r - 1);
      assert Get(after, r + 1) == Get(before, r);
      Assoc(Get(before, r), Joined(before, r - 1), Get(after, 0));
    }
  }

  lemma {:induction false} JoinedAppend(before: Files, after: Files, r: nat, p: Bytes)
    requires AppendedTo(before, after, p, r)
    ensures Joined(after, r) == Joined(before, r) + p
  {
    if r > 0 {
      JoinedAppend(before, after, r - 1, p);
      Assoc(Get(before, r), Joined(before, r - 1), p);
    }
  }

  /** The slot count after a write: a rotation fills one more slot until keep is reached. */
  function NextTop(c: Config, s: Sink, p: Bytes, r: nat): nat {
    if s.n + |p| <= c.maxSize then r else if r < c.keep then r + 1 else c.keep
  }

  /** The effect of a fault-free rotating write, seen only through the contents of the slots. */
  ghost predicate RotatedInto(before: Files, after: Files, p: Bytes, r': nat) {
    && Get(after, 0) == p
    && (forall i: nat {:trigger Get(after, i)} | 1 <= i <= r' :: Get(after, i) == Get(before, i - 1))
  }

  lemma RotatingWrite(c: Config, s: Sink, p: Bytes, f: Faults, r: nat)
    requires c.keep >= 1 && Retains(c, s, r) && NoFaults(p, f) && s.n + |p| > c.maxSize
    ensures var (t, k) := Written(c, s, p, f);
            var r' := if r < c.keep then r + 1 else c.keep;
            && k == |p| && t.hist == s.hist + p && t.open && t.n == |p|
            && Fills(t.files, r')
            && RotatedInto(s.files, t.files, p, r')
  {
    RotateShape(c, s.files, f);
    assert p[..|p|] == p;
    var files := Rotated(c, s.files, f).0;
    assert 0 !in files;
    var t := Written(c, s, p, f).0;
    assert t.files == files[0 := [] + p];
    forall i: nat | 1 <= i
      ensures i in files <==> i <= if r < c.keep then r + 1 else c.keep
    {
      assert i in files <==> Origin(i, c.keep, 0) in s.files;
    }
  }

  lemma NeighboursAfterRotation(before: Files, after: Files, p: Bytes, r: nat, r': nat, maxSize: nat)
    requires RotatedInto(before, after, p, r') && 1 <= r' <= r + 1
    requires |Get(before, 0)| + |p| > maxSize
    requires forall i: nat | i < r :: Neighbours(before, i, maxSize)
    ensures forall i: nat | i < r' :: Neighbours(after, i, maxSize)
  {
    forall i: nat | i < r'
      ensures Neighbours(after, i, maxSize)
    {
      if i > 0 {
        assert Neighbours(before, i - 1, maxSize);
      }
    }
  }

  lemma JoinedAfterRotation(before: Files, after: Files, p: Bytes, r: nat, keep: nat)
    requires 1 <= keep && r <= keep
    requires RotatedInto(before, after, p, if r < keep then r + 1 else keep)
    ensures Joined(before, r) + p
         == (if r == keep then Get(before, r) else []) + Joined(after, if r < keep then r + 1 else keep)
  {
    if r < keep {
      JoinedShift(before, after, r);
      Unit(Joined(after, r + 1));
    } else {
      JoinedShift(before, after, r - 1);
      Assoc(Get(before, r), Joined(before, r - 1), p);
    }
  }

  /** A fault-free write loses nothing but what falls off slot keep in a rotation. */
  lemma {:induction false} WriteConserves(c: Config, s: Sink, p: Bytes, f: Faults, r: nat)
    requires c.keep >= 1 && Retains(c, s, r) && NoFaults(p, f)
    ensures var (t, k) := Written(c, s, p, f);
            var lost := if s.n + |p| > c.maxSize && r == c.keep then Get(s.files, r) else [];
            && k == |p|
            && t.hist == s.hist + p
            && Joined(s.files, r) + p == lost + Joined(t.files, NextTop(c, s, p, r))
            && Retains(c, t, NextTop(c, s, p, r))
  {
    if s.n + |p| > c.maxSize {
      RotatingWrite(c, s, p, f, r);
      RotationRetains(c, s, Written(c, s, p, f).0, p, r);
    } else {
      PlainWrite(c, s, p, f, r);
    }
  }

  lemma {:induction false} RotationRetains(c: Config, s: Sink, t: Sink, p: Bytes, r: nat)
    requires c.keep >= 1 && Retains(c, s, r) && s.n + |p| > c.maxSize
    requires t.hist == s.hist + p && t.open && t.n == |p|
    requires var r' := if r < c.keep then r + 1 else c.keep;
             Fills(t.files, r') && RotatedInto(s.files, t.files, p, r')
    ensures var r' := if r < c.keep then r + 1 else c.keep;
            && Joined(s.files, r) + p == (if r == c.keep then Get(s.files, r) else []) + Joined(t.files, r')
            && Retains(c, t, r')
  {
    var r' := if r < c.keep then r + 1 else c.keep;
    JoinedAfterRotation(s.files, t.files, p, r, c.keep);
    NeighboursAfterRotation(s.files, t.files, p, r, r', c.maxSize);
    SuffixStep(s.hist, Joined(s.files, r), p, if r == c.keep then Get(s.files, r) else [], Joined(t.files, r'));
  }

  lemma {:induction false} PlainWrite(c: Config, s: Sink, p: Bytes, f: Faults, r: nat)
    requires Retains(c, s, r) && NoFaults(p, f) && s.n + |p| <= c.maxSize && c.keep >= 1
    ensures var (t, k) := Written(c, s, p, f);
            && k == |p| && t.hist == s.hist + p
            && Joined(s.files, r) + p == [] + Joined(t.files, r)
            && Retains(c, t, r)
  {
    assert p[..|p|] == p;
    PlainRetains(c, s, Written(c, s, p, f).0, p, r);
    Unit(Joined(Written(c, s, p, f).0.files, r));
  }

  /** The effect of a write that does not rotate, seen only through the contents of the slots. */
  ghost predicate AppendedTo(before: Files, after: Files, p: Bytes, r: nat) {
    && Get(after, 0) == Get(before, 0) + p
    && (forall i: nat {:trigger Get(after, i)} | 1 <= i <= r :: Get(after, i) == Get(before, i))
  }

  lemma NeighboursAfterAppend(before: Files, after: Files, p: Bytes, r: nat, maxSize: nat)
    requires AppendedTo(before, after, p, r) && forall i: nat | i < r :: Neighbours(before, i, maxSize)
    ensures forall i: nat | i < r :: Neighbours(after, i, maxSize)
  {
    forall i: nat | i < r
      ensures Neighbours(after, i, maxSize)
    {
      assert Neighbours(before, i, maxSize);
    }
  }

  lemma AppendedInPlace(before: Files, after: Files, p: Bytes, r: nat)
    requires Fills(before, r) && after == before[0 := Get(before, 0) + p]
    ensures AppendedTo(before, after, p, r) && Fills(after, r)
  {
  }

  lemma {:induction false} PlainRetains(c: Config, s: Sink, t: Sink, p: Bytes, r: nat)
    requires Retains(c, s, r) && t.hist == s.hist + p && t.open && t.n == s.n + |p|
    requires t.files == s.files[0 := Get(s.files, 0) + p]
    ensures Joined(s.files, r) + p == Joined(t.files, r) && Retains(c, t, r)
  {
    AppendedInPlace(s.files, t.files, p, r);
    JoinedAppend(s.files, t.files, r, p);
    NeighboursAfterAppend(s.files, t.files, p, r, c.maxSize);
    Unit(Joined(t.files, r));
    SuffixStep(s.hist, Joined(s.files, r), p, [], Joined(t.files, r));
  }

  lemma SuffixStep(hist: Bytes, kept: Bytes, p: Bytes, lost: Bytes, kept': Bytes)
    requires IsSuffix(kept, hist)
    requires kept + p == lost + kept'
    ensures IsSuffix(kept', hist + p)
  {
    var d := |hist| - |kept|;
    assert hist == hist[..d] + kept;
    assert |lost| + |kept'| == |kept| + |p|;
    assert hist + p == hist[..d] + (lost + kept');
  }

  /** How many of these fault-free writes rotate. */
  function Rotations(c: Config, s: Sink, writes: seq<Bytes>): nat
    requires c.keep >= 1
    decreases |writes|
  {
    if writes == [] then 0
    else
      var rest := Rotations(c, Written(c, s, writes[0], Calm(writes[0])).0, writes[1..]);
      if s.n + |writes[0]| > c.maxSize then rest + 1 else rest
  }

  /** The fault script in which nothing fails. */
  function Calm(p: Bytes): Faults {
    Faults(false, {}, Opened, |p|)
  }

  function CalmRun(c: Config, s: Sink, writes: seq<Bytes>): Sink
    requires c.keep >= 1
    decreases |writes|
  {
    if writes == [] then s else CalmRun(c, Written(c, s, writes[0], Calm(writes[0])).0, writes[1..])
  }

  lemma {:induction false} CalmRunRetains(c: Config, s: Sink, r: nat, writes: seq<Bytes>)
    requires c.keep >= 1 && Retains(c, s, r)
    ensures Retains(c, CalmRun(c, s, writes), Min(r + Rotations(c, s, writes), c.keep))
    decreases |writes|
  {
    if writes != [] {
      WriteConserves(c, s, writes[0], Calm(writes[0]), r);
      CalmRunRetains(c, Written(c, s, writes[0], Calm(writes[0])).0, NextTop(c, s, writes[0], r), writes[1..]);
    }
  }

  lemma {:induction false} PairsAddUp(files: Files, r: nat, maxSize: nat)
    requires forall i: nat | i < r :: Neighbours(files, i, maxSize)
    ensures |Joined(files, r)| >= (r + 1) / 2 * (maxSize + 1)
    decreases r
  {
    if r == 1 {
      assert Neighbours(files, 0, maxSize);
      assert |Joined(files, 1)| == |Get(files, 1)| + |Get(files, 0)|;
    } else if r >= 2 {
      PairsAddUp(files, r - 2, maxSize);
      assert Joined(files, r) == Get(files, r) + Joined(files, r - 1);
      assert Joined(files, r - 1) == Get(files, r - 1) + Joined(files, r - 2);
      assert Neighbours(files, r - 1, maxSize);
      assert (r + 1) / 2 == (r - 1) / 2 + 1;
      assert ((r - 1) / 2 + 1) * (maxSize + 1) == (r - 1) / 2 * (maxSize + 1) + (maxSize + 1);
    }
  }

  /** A sink freshly opened where no log existed. */
  function Blank(): Sink {
    Started(Sink(map[], false, 0, []), Startup(false, false, Opened, false, false))
  }

  lemma {:induction false} RetentionFrom(c: Config, s: Sink, r: nat, writes: seq<Bytes>)
    requires c.keep >= 1 && Retains(c, s, r)
    ensures var r' := Min(r + Rotations(c, s, writes), c.keep);
            var t := CalmRun(c, s, writes);
            Retains(c, t, r') && |Joined(t.files, r')| >= (r' + 1) / 2 * (c.maxSize + 1)
  {
    CalmRunRetains(c, s, r, writes);
    PairsAddUp(CalmRun(c, s, writes).files, Min(r + Rotations(c, s, writes), c.keep), c.maxSize);
  }

  lemma BlankRetains(c: Config)
    ensures Retains(c, Blank(), 0) && Blank().hist == []
  {
    assert Blank().files == map[0 := []];
  }

  /** From no files at all: after any fault-free writes what remains is a suffix of everything
      written, and after keep or more rotations it is more than maxSize bytes for every two of the
      keep + 1 slots. */
  lemma {:induction false} RetentionFromScratch(c: Config, writes: seq<Bytes>)
    requires c.keep >= 1
    ensures var r := Min(Rotations(c, Blank(), writes), c.keep);
            var t := CalmRun(c, Blank(), writes);
            Retains(c, t, r) && |Joined(t.files, r)| >= (r + 1) / 2 * (c.maxSize + 1)
  {
    BlankRetains(c);
    RetentionFrom(c, Blank(), 0, writes);
  }

  // ---------- Starts ----------

  /** The condition under which a start leaves a live file where there was none. */
  predicate CreatesLive(s: Sink, u: Startup) {
    && !u.dirUnsafe && !u.open.OpenFails?
    && !(u.open.Opened? && u.fileUnsafe && !u.statUnknown && !u.cleanupFails)
  }

  /** A start appends: whatever fails, every file there was stays exactly as it was, and at most an empty
      live file is new. It leaves a usable sink, its counter at the live file's size, exactly when the
      directory and the file could be protected and the file could be opened. */
  lemma StartKeepsFiles(s: Sink, u: Startup)
    ensures var t := Started(s, u);
            && (forall slot {:trigger t.files[slot]} {:trigger s.files[slot]} | slot in s.files ::
                  slot in t.files && t.files[slot] == s.files[slot])
            && (forall slot {:trigger slot in t.files} | slot in t.files ::
                  slot in s.files || (slot == 0 && t.files[0] == [] && CreatesLive(s, u)))
            && (CreatesLive(s, u) ==> 0 in t.files)
            && t.hist == s.hist
            && (t.open <==> !u.dirUnsafe && u.open.Opened? && !u.fileUnsafe)
            && (t.open ==> t.n == |t.files[0]|)
  {
  }

  /** This event takes the file in this slot away: it falls off slot keep in a rotation, or it is the live
      file and a failed rotation truncates it. Starts and closes take nothing. */
  predicate TakesAway(c: Config, s: Sink, e: Event, slot: nat)
    requires c.keep >= 1
  {
    e.Write? && s.n + |e.p| > c.maxSize &&
    ((slot == c.keep && !e.f.removeFails)
     || (slot == 0 && !Rotated(c, s.files, e.f).1 && !e.f.reopen.OpenFails?))
  }

  /** The slot the file of this slot is in after the event: a rotation moves it up unless a rename at or
      above it failed. */
  function Moved(c: Config, s: Sink, e: Event, slot: nat): nat
    requires c.keep >= 1
  {
    if e.Write? && s.n + |e.p| > c.maxSize && !e.f.removeFails
       && StopSlot(c.keep - 1, e.f.renameFails) < slot < c.keep then slot + 1 else slot
  }

  lemma EventKeepsFile(c: Config, s: Sink, e: Event, slot: nat)
    requires c.keep >= 1 && Synced(s) && slot in s.files && !TakesAway(c, s, e, slot)
    ensures var t, to := After(c, s, e), Moved(c, s, e, slot);
            Synced(t) && to in t.files && s.files[slot] <= t.files[to]
  {
    match e {
      case Write(p, f) => WriteKeepsFile(c, s, p, f, slot);
      case Close =>
      case Start(u) => StartKeepsFiles(s, u);
    }
  }

  lemma WriteKeepsFile(c: Config, s: Sink, p: Bytes, f: Faults, slot: nat)
    requires c.keep >= 1 && Synced(s) && slot in s.files && !TakesAway(c, s, Write(p, f), slot)
    ensures var t, to := Written(c, s, p, f).0, Moved(c, s, Write(p, f), slot);
            Synced(t) && to in t.files && s.files[slot] <= t.files[to]
  {
    if s.n + |p| > c.maxSize && !f.removeFails {
      RotateShape(c, s.files, f);
      var to := Moved(c, s, Write(p, f), slot);
      assert Origin(to, c.keep, StopSlot(c.keep - 1, f.renameFails) + 1) == slot;
      var files := Rotated(c, s.files, f).0;
      assert to in files && files[to] == s.files[slot];
    }
  }

  /** Nothing in the run takes the file away, followed from slot to slot. */
  predicate NeverTaken(c: Config, s: Sink, events: seq<Event>, slot: nat)
    requires c.keep >= 1
    decreases |events|
  {
    events != [] ==>
      && !TakesAway(c, s, events[0], slot)
      && NeverTaken(c, After(c, s, events[0]), events[1..], Moved(c, s, events[0], slot))
  }

  function MovedBy(c: Config, s: Sink, events: seq<Event>, slot: nat): nat
    requires c.keep >= 1
    decreases |events|
  {
    if events == [] then slot
    else MovedBy(c, After(c, s, events[0]), events[1..], Moved(c, s, events[0], slot))
  }

  /** Over any run of faulty writes, closes and starts a file stays whole, in the slot the rotations moved
      it to, unless one of the two ways of losing a file takes it away. */
  lemma {:induction false} RunKeepsFile(c: Config, s: Sink, events: seq<Event>, slot: nat)
    requires c.keep >= 1 && Synced(s) && slot in s.files && NeverTaken(c, s, events, slot)
    ensures var t, to := Run(c, s, events), MovedBy(c, s, events, slot);
            to in t.files && s.files[slot] <= t.files[to]
    decreases |events|
  {
    if events != [] {
      EventKeepsFile(c, s, events[0], slot);
      RunKeepsFile(c, After(c, s, events[0]), events[1..], Moved(c, s, events[0], slot));
    }
  }

  /** A start in which nothing goes wrong. */
  predicate CalmStart(u: Startup) {
    !u.dirUnsafe && u.open.Opened? && !u.fileUnsafe
  }

  /** A fault-free run of a machine: it writes only while its sink is open, and it may stop and start its
      process at any time. */
  predicate Orderly(events: seq<Event>, open: bool)
    decreases |events|
  {
    events != [] ==>
      match events[0]
      case Write(p, f) => open && f == Calm(p) && Orderly(events[1..], true)
      case Close => Orderly(events[1..], false)
      case Start(u) => CalmStart(u) && Orderly(events[1..], true)
  }

  function WritesOf(events: seq<Event>): seq<Bytes> {
    if events == [] then []
    else if events[0].Write? then [events[0].p] + WritesOf(events[1..])
    else WritesOf(events[1..])
  }

  function EndsOpen(events: seq<Event>, open: bool): bool {
    if events == [] then open else EndsOpen(events[1..], !events[0].Close?)
  }

  /** A restart changes nothing about a sink that was in order. */
  lemma RestartIsNeutral(c: Config, s: Sink, r: nat, u: Startup, open: bool)
    requires Retains(c, s, r) && CalmStart(u)
    ensures Started(s.(open := open), u) == s
  {
  }

  /** The retention laws hold across restarts: a fault-free run with restarts leaves the files and the
      history that its writes alone would leave. */
  lemma {:induction false} RestartsRetain(c: Config, s: Sink, r: nat, open: bool, events: seq<Event>)
    requires c.keep >= 1 && Retains(c, s, r) && Orderly(events, open)
    ensures Run(c, s.(open := open), events) == CalmRun(c, s, WritesOf(events)).(open := EndsOpen(events, open))
    decreases |events|
  {
    if events != [] {
      match events[0]
      case Write(p, f) =>
        assert s.(open := open) == s;
        WriteConserves(c, s, p, f, r);
        RestartsRetain(c, Written(c, s, p, f).0, NextTop(c, s, p, r), true, events[1..]);
        CalmRunCons(c, s, p, WritesOf(events[1..]));
      case Close =>
        RestartsRetain(c, s, r, false, events[1..]);
      case Start(u) =>
        RestartIsNeutral(c, s, r, u, open);
        assert s.(open := true) == s;
        RestartsRetain(c, s, r, true, events[1..]);
        assert Run(c, s.(open := open), events) == Run(c, s, events[1..]);
    }
  }

  lemma {:induction false} CalmRunCons(c: Config, s: Sink, p: Bytes, rest: seq<Bytes>)
    requires c.keep >= 1
    ensures CalmRun(c, s, [p] + rest) == CalmRun(c, Written(c, s, p, Calm(p)).0, rest)
  {
    assert ([p] + rest)[1..] == rest;
  }

  /** From no files at all and across any restarts: what remains is a suffix of everything written, and
      more than maxSize bytes for every two of the slots in use. */
  lemma {:induction false} RetentionAcrossRestarts(c: Config, events: seq<Event>)
    requires c.keep >= 1 && Orderly(events, true)
    ensures var r := Min(Rotations(c, Blank(), WritesOf(events)), c.keep);
            var t := Run(c, Blank(), events);
            && Fills(t.files, r) && IsSuffix(Joined(t.files, r), t.hist)
            && |Joined(t.files, r)| >= (r + 1) / 2 * (c.maxSize + 1)
  {
    BlankRetains(c);
    assert Blank().(open := true) == Blank();
    RestartsRetain(c, Blank(), 0, true, events);
    RetentionFromScratch(c, WritesOf(events));
  }

  // ---------- A sink whose reopen failed ----------

  /** While the handle is closed only a write that rotates reopens the file: with nothing failing any
      more, a write gets through exactly when it would outgrow the size the closed file had. */
  lemma ClosedWriteIff(c: Config, s: Sink, p: Bytes)
    requires c.keep >= 1 && !s.open && p != []
    ensures Written(c, s, p, Calm(p)).1 > 0 <==> s.n + |p| > c.maxSize
  {
  }

  /** So all writes that fit are lost without a retry, however many there are and although nothing fails. */
  lemma {:induction false} ClosedRunIsLost(c: Config, s: Sink, writes: seq<Bytes>)
    requires c.keep >= 1 && !s.open && forall p | p in writes :: s.n + |p| <= c.maxSize
    ensures CalmRun(c, s, writes) == s
    decreases |writes|
  {
    if writes != [] {
      assert writes[0] in writes;
      ClosedRunIsLost(c, s, writes[1..]);
    }
  }

  /** The fault script in which only the reopen fails. */
  function NoReopen(p: Bytes): Faults {
    Faults(false, {}, OpenFails, |p|)
  }

  /** A rotating write whose reopen fails leaves the sink closed, with the old size and nothing written. */
  lemma FailedReopenCloses(c: Config, s: Sink, p: Bytes)
    requires c.keep >= 1 && s.n + |p| > c.maxSize
    ensures var t := Written(c, s, p, NoReopen(p)).0;
            !t.open && t.n == s.n && t.hist == s.hist
  {
    var f := NoReopen(p);
    var (files, ok) := Rotated(c, s.files, f);
    var closed := s.(files := files, open := false);
    assert Reopened(closed, !ok, f.reopen) == closed;
    assert Written(c, s, p, f) == (closed, 0);
  }

  lemma FirstWrite(c: Config, p: Bytes)
    requires c.keep >= 1 && |p| <= c.maxSize
    ensures var t := Written(c, Blank(), p, Calm(p)).0; t.n == |p| && t.hist == p
  {
    assert Blank() == Sink(map[0 := []], true, 0, []);
    assert p[..|p|] == p && [] + p == p;
  }

  lemma {:induction false} RunTwo(c: Config, s: Sink, p: Bytes, f: Faults, q: Bytes, g: Faults)
    requires c.keep >= 1
    ensures Run(c, s, [Write(p, f), Write(q, g)]) == Written(c, Written(c, s, p, f).0, q, g).0
  {
    var events, t := [Write(p, f), Write(q, g)], Written(c, s, p, f).0;
    assert events[1..] == [Write(q, g)] && events[1..][1..] == [];
    assert Run(c, s, events) == Run(c, t, events[1..]);
    assert Run(c, t, events[1..]) == Run(c, Written(c, t, q, g).0, []);
  }

  /** The sink gets there from no files at all: one failed reopen, and every later write that fits into
      the size last known is lost. */
  lemma {:induction false} ClosedSinkIsReachable(c: Config, first: Bytes, second: Bytes, writes: seq<Bytes>)
    requires c.keep >= 1 && |first| <= c.maxSize < |first| + |second|
    requires forall p | p in writes :: |first| + |p| <= c.maxSize
    ensures var s := Run(c, Blank(), [Write(first, Calm(first)), Write(second, NoReopen(second))]);
            !s.open && s.n == |first| && s.hist == first && CalmRun(c, s, writes) == s
  {
    RunTwo(c, Blank(), first, Calm(first), second, NoReopen(second));
    FirstWrite(c, first);
    FailedReopenCloses(c, Written(c, Blank(), first, Calm(first)).0, second);
    var s := Run(c, Blank(), [Write(first, Calm(first)), Write(second, NoReopen(second))]);
    ClosedRunIsLost(c, s, writes);
  }
}
