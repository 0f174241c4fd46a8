/** SaveConfig, WipeConfig and LoadConfig of client/config.go over a disk on which every call may fail
    and the machine may stop between any two calls. Renaming is atomic. */
module ConfigFile {
  import opened Basics

  /** The two files involved. */
  datatype Files = Files(path: Option<Bytes>, tmp: Option<Bytes>)

  /** How one call goes; a write also says how many bytes it got through. */
  datatype Outcome = Works | Fails(written: nat) | Stops(written: nat)

  datatype End = Done | Error | Stopped

  class Disk {
    var path: Option<Bytes>
    var tmp: Option<Bytes>

    ghost function State(): Files
      reads this
    {
      Files(path, tmp)
    }

    constructor (path: Option<Bytes>, tmp: Option<Bytes>)
      ensures this.path == path && this.tmp == tmp
    {
      this.path, this.tmp := path, tmp;
    }

    /** `calls` gives the outcomes of the calls in turn: make the directory, remove a stale temporary
        file, create it, write, sync, close, rename, and the clean-up after an error. */
    method Save(data: Bytes, calls: nat -> Outcome) returns (end: End)
      modifies this
      ensures end.Done? <==> SaveGoesThrough(calls, old(tmp))
      ensures (forall k | 0 <= k < 8 :: !calls(k).Stops?) ==> !end.Stopped?
      ensures end.Done? ==> path == Some(data) && tmp == None
      ensures end.Error? ==> path == old(path)
      ensures SaveEffect(old(State()), State(), data)
      ensures Happened(old(State()), Saving(data, end), State())
      ensures end.Error? && calls(7).Works? ==> tmp == None || tmp == old(tmp)
    {
      if !calls(0).Works? {
        return if calls(0).Fails? then Error else Stopped;
      }
      match calls(1) {
        case Works => tmp := None;
        case Fails(_) =>
        case Stops(_) => return Stopped;
      }
      if calls(2).Stops? {
        return Stopped;
      }
      if calls(2).Fails? || tmp.Some? {
        return Error;
      }
      tmp := Some([]);
      if !calls(3).Works? {
        var k := calls(3).written;
        tmp := Some(if k < |data| then data[..k] else data);
        end := CleanUp(calls(3), calls(7));
        return;
      }
      tmp := Some(data);
      if !calls(4).Works? {
        end := CleanUp(calls(4), calls(7));
        return;
      }
      if !calls(5).Works? {
        end := CleanUp(calls(5), calls(7));
        return;
      }
      if !calls(6).Works? {
        end := CleanUp(calls(6), calls(7));
        return;
      }
      path, tmp := tmp, None;
      end := Done;
    }

    method CleanUp(failed: Outcome, remove: Outcome) returns (end: End)
      requires !failed.Works?
      modifies this`tmp
      ensures end == if failed.Stops? || remove.Stops? then Stopped else Error
      ensures tmp == if failed.Fails? && remove.Works? then None else old(tmp)
    {
      if failed.Stops? || remove.Stops? {
        return Stopped;
      }
      if remove.Works? {
        tmp := None;
      }
      end := Error;
    }

    /** Overwrites the file with zeros as far as the write gets, then removes it. */
    method Wipe(stat: Outcome, open: Outcome, write: Outcome, remove: Outcome) returns (end: End)
      modifies this`path
      ensures end.Done? <==> old(path).None? || WipeGoesThrough(stat, open, write, remove)
      ensures !stat.Stops? && !open.Stops? && !write.Stops? && !remove.Stops? ==> !end.Stopped?
      ensures end.Done? ==> path == None
      ensures old(path).Some? && stat.Works? && open.Works? && write.Works? && !remove.Works? ==>
                path == Some(Zeroed(old(path).value, |old(path).value|))
      ensures WipeEffect(old(State()), State())
      ensures Happened(old(State()), Wiping(end), State())
    {
      if path.None? {
        return Done;
      }
      ghost var content := path.value;
      assert Zeroed(content, 0) == content;
      if !stat.Works? {
        return if stat.Fails? then Error else Stopped;
      }
      if open.Stops? {
        return Stopped;
      }
      if open.Works? {
        var n := |path.value|;
        var k := if write.Works? || write.written > n then n else write.written;
        path := Some(Zeroed(path.value, k));
        if write.Stops? {
          return Stopped;
        }
      }
      match remove {
        case Works => path := None; end := Done;
        case Fails(_) => end := Error;
        case Stops(_) => end := Stopped;
      }
    }
  }

  /** Every call that matters works: all but the removal of a stale temporary file, which may fail if
      there is none. */
  predicate SaveGoesThrough(calls: nat -> Outcome, tmp: Option<Bytes>) {
    && calls(0).Works? && (calls(1).Works? || (calls(1).Fails? && tmp.None?))
    && calls(2).Works? && calls(3).Works? && calls(4).Works? && calls(5).Works? && calls(6).Works?
  }

  /** The file can be found and removed; overwriting it may fail. */
  predicate WipeGoesThrough(stat: Outcome, open: Outcome, write: Outcome, remove: Outcome) {
    stat.Works? && !open.Stops? && (open.Works? ==> !write.Stops?) && remove.Works?
  }

  /** The content with its first k bytes overwritten by zeros. */
  function Zeroed(content: Bytes, k: nat): (z: Bytes)
    requires k <= |content|
    ensures |z| == |content|
  {
    seq(k, i => 0) + content[k..]
  }

  /** Wherever a save stops, the file is the whole old one or the whole new one. */
  ghost predicate SaveEffect(before: Files, after: Files, data: Bytes) {
    after.path == before.path || after.path == Some(data)
  }

  /** Wherever a wipe stops, the file is gone, or is the old one with a leading part zeroed. */
  ghost predicate WipeEffect(before: Files, after: Files) {
    || after.path == None
    || (before.path.Some? &&
        exists k :: 0 <= k <= |before.path.value| && after.path == Some(Zeroed(before.path.value, k)))
  }

  // ---------- What a later start loads ----------

  /** LoadConfig, given how text parses: a missing or unparsable file is no configuration. */
  function Load<C>(path: Option<Bytes>, parse: Bytes -> Option<C>): Option<C> {
    if path.None? then None else parse(path.value)
  }

  /** A start after a completed save loads what was saved; after a completed wipe, nothing. */
  lemma LoadsLastCompleted<C>(before: Files, a: Attempt, after: Files, parse: Bytes -> Option<C>)
    requires Happened(before, a, after) && a.end.Done?
    ensures Load(after.path, parse) == if a.Saving? then parse(a.data) else None
  {
  }

  /** No JSON text begins with a zero byte. */
  ghost predicate JsonLike<C(!new)>(parse: Bytes -> Option<C>) {
    forall b: Bytes | b != [] && b[0] == 0 :: parse(b) == None
  }

  /** One attempt to save or to wipe, and how it ended. */
  datatype Attempt = Saving(data: Bytes, end: End) | Wiping(end: End)

  ghost predicate Happened(before: Files, a: Attempt, after: Files) {
    match a
    case Saving(data, end) =>
      (match end
       case Done => after.path == Some(data)
       case Error => after.path == before.path
       case Stopped => SaveEffect(before, after, data))
    case Wiping(end) => if end.Done? then after.path == None else WipeEffect(before, after)
  }

  /** No attempt from the i-th on was completed. */
  ghost predicate NoneDone(attempts: seq<Attempt>, i: nat) {
    forall j | i <= j < |attempts| :: !attempts[j].end.Done?
  }

  /** The text was on disk to begin with or a save brought it, the save did not report an error, and no
      attempt after that was completed. */
  ghost predicate Intended(text: Bytes, first: Files, attempts: seq<Attempt>) {
    || (first.path == Some(text) && NoneDone(attempts, 0))
    || exists i :: 0 <= i < |attempts| && attempts[i].Saving? && attempts[i].data == text
                && !attempts[i].end.Error? && NoneDone(attempts, i + 1)
  }

  ghost predicate Wholesome(path: Option<Bytes>, first: Files, attempts: seq<Attempt>) {
    path.Some? ==>
      exists text, k :: Intended(text, first, attempts) && 0 <= k <= |text| && path.value == Zeroed(text, k)
  }

  /** An attempt that was not completed leaves the intended texts intended. */
  lemma IntendedStays(text: Bytes, first: Files, init: seq<Attempt>, a: Attempt)
    requires Intended(text, first, init) && !a.end.Done?
    ensures Intended(text, first, init + [a])
  {
    var attempts := init + [a];
    if !(first.path == Some(text) && NoneDone(init, 0)) {
      var i :| 0 <= i < |init| && init[i].Saving? && init[i].data == text
            && !init[i].end.Error? && NoneDone(init, i + 1);
      assert attempts[i] == init[i] && NoneDone(attempts, i + 1);
    }
  }

  lemma ZeroedTwice(text: Bytes, k: nat, l: nat)
    requires k <= |text| && l <= |text|
    ensures Zeroed(Zeroed(text, k), l) == Zeroed(text, if k < l then l else k)
  {
  }

  /** After any history of saves and wipes, each stopped or failed at any point, the file is absent or is
      an intended text with a leading part zeroed, counted from the last completed attempt on. */
  lemma {:induction false} HistoryWholesome(states: seq<Files>, attempts: seq<Attempt>)
    requires |states| == |attempts| + 1
    requires forall i | 0 <= i < |attempts| :: Happened(states[i], attempts[i], states[i + 1])
    ensures Wholesome(states[|attempts|].path, states[0], attempts)
    decreases |attempts|
  {
    var n := |attempts|;
    if n == 0 {
      if states[0].path.Some? {
        var text := states[0].path.value;
        assert Intended(text, states[0], attempts) && text == Zeroed(text, 0);
      }
    } else {
      var init := attempts[..n - 1];
      assert forall i | 0 <= i < n - 1 :: Happened(states[..n][i], init[i], states[..n][i + 1]);
      HistoryWholesome(states[..n], init);
      StepWholesome(states[n - 1], attempts[n - 1], states[n], states[0], init);
      assert attempts == init + [attempts[n - 1]];
    }
  }

  lemma StepWholesome(before: Files, a: Attempt, after: Files, first: Files, init: seq<Attempt>)
    requires Happened(before, a, after) && Wholesome(before.path, first, init)
    ensures Wholesome(after.path, first, init + [a])
  {
    if after.path.Some? {
      if a.Saving? && !a.end.Error? && after.path == Some(a.data) {
        assert (init + [a])[|init|] == a && NoneDone(init + [a], |init| + 1);
        assert Intended(a.data, first, init + [a]) && a.data == Zeroed(a.data, 0);
      } else {
        var text, k :| Intended(text, first, init) && 0 <= k <= |text| && before.path.value == Zeroed(text, k);
        IntendedStays(text, first, init, a);
        if a.Wiping? {
          var l :| 0 <= l <= |before.path.value| && after.path == Some(Zeroed(before.path.value, l));
          ZeroedTwice(text, k, l);
        }
      }
    }
  }

  /** So a start after any such history loads none, or a configuration that was there at first or that a
      save was given, never a mixture, and never one that a completed save replaced or a completed wipe
      removed. */
  lemma LoadsIntendedOrNone<C(!new)>(states: seq<Files>, attempts: seq<Attempt>, parse: Bytes -> Option<C>)
    requires |states| == |attempts| + 1 && JsonLike(parse)
    requires forall i | 0 <= i < |attempts| :: Happened(states[i], attempts[i], states[i + 1])
    ensures var loaded := Load(states[|attempts|].path, parse);
            loaded == None || exists text :: Intended(text, states[0], attempts) && loaded == parse(text)
  {
    HistoryWholesome(states, attempts);
    var path := states[|attempts|].path;
    if path.Some? {
      var text, k :| Intended(text, states[0], attempts) && 0 <= k <= |text| && path.value == Zeroed(text, k);
      if k == 0 {
        assert Zeroed(text, 0) == text;
      } else {
        assert Zeroed(text, k)[0] == 0;
      }
    }
  }
}
