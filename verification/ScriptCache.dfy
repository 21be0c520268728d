/** MesiboJsProcessor: a compiled script cached under the time stamp of its file,
    and reloaded when the stamp changes.  A reload replaces the context first and
    the handlers last, and may fail in between. */
module ScriptCache {
  import opened Basics

  /** What a file holds and what becomes of it when it is compiled and run. */
  datatype Script = Script(version: nat, compiles: bool, runs: bool,
                           onMessage: bool, onMessageStatus: bool, onLogin: bool)

  /** What one call sees: the time stamp stat reports, if it succeeds, and the
      file that access and fopen find, if it is there. */
  datatype Files = Files(stamp: Option<int>, file: Option<Script>)

  /** A listener: the script it was taken from, and whether that script defines
      it; an undefined listener is held as a handle to null, not as an empty handle. */
  datatype Listener = Listener(version: nat, defined: bool)

  datatype Cache = Cache(
    lastChanged: int,
    context: Option<nat>,
    onMessage: Option<Listener>,
    onMessageStatus: Option<Listener>,
    onLogin: Option<Listener>)

  const UNLOADED := Cache(0, None, None, None, None)

  function Observed(f: Files): int {
    if f.stamp.Some? then f.stamp.value else MESIBO_RESULT_FAIL
  }

  predicate Succeeds(s: Script) {
    s.compiles && s.runs
  }

  // ---------------------------------------------------------------------
  // What the methods do

  function Executed(c: Cache, s: Script): Cache {
    var c1 := c.(context := Some(s.version));
    if !Succeeds(s) then c1 else
    c1.(onMessage := Some(Listener(s.version, s.onMessage)),
        onMessageStatus := Some(Listener(s.version, s.onMessageStatus)),
        onLogin := Some(Listener(s.version, s.onLogin)))
  }

  function Initialized(c: Cache, f: Files): Cache {
    if f.file.None? then c else Executed(c, f.file.value)
  }

  predicate Stale(lastChanged: int, latest: int) {
    lastChanged != 0 && lastChanged != latest
  }

  function Refreshed(c: Cache, f: Files): Cache {
    var c1 := c.(lastChanged := ToInt32(Observed(f)));
    if Stale(c.lastChanged, Observed(f)) then Initialized(c1, f) else c1
  }

  class MesiboJsProcessor {
    var lastChanged: int
    var context: Option<nat>
    var onMessage: Option<Listener>
    var onMessageStatus: Option<Listener>
    var onLogin: Option<Listener>
    var reloads: nat

    function Value(): Cache
      reads this
    {
      Cache(lastChanged, context, onMessage, onMessageStatus, onLogin)
    }

    constructor ()
      ensures Value() == UNLOADED && reloads == 0
    {
      lastChanged := 0;
      context := None;
      onMessage, onMessageStatus, onLogin := None, None, None;
      reloads := 0;
    }

    static method GetLastChanged(f: Files) returns (t: int)
      ensures t == Observed(f)
    {
      if f.stamp.Some? { return f.stamp.value; }
      return MESIBO_RESULT_FAIL;
    }

    /** A listener the script does not define is returned as null, which makes a
        non-empty handle; so the test for an empty message listener never fires. */
    method ExecuteScript(s: Script) returns (rv: int)
      modifies this
      ensures Value() == Executed(old(Value()), s) && reloads == old(reloads)
      ensures rv == if Succeeds(s) then MESIBO_RESULT_OK else MESIBO_RESULT_FAIL
    {
      context := Some(s.version);
      if !s.compiles { return MESIBO_RESULT_FAIL; }
      if !s.runs { return MESIBO_RESULT_FAIL; }
      onMessage := Some(Listener(s.version, s.onMessage));
      if onMessage.None? { return MESIBO_RESULT_FAIL; }
      onMessageStatus := Some(Listener(s.version, s.onMessageStatus));
      onLogin := Some(Listener(s.version, s.onLogin));
      return MESIBO_RESULT_OK;
    }

    method Initialize(f: Files) returns (rv: int)
      modifies this
      ensures Value() == Initialized(old(Value()), f) && reloads == old(reloads)
      ensures rv == if f.file.Some? && Succeeds(f.file.value) then MESIBO_RESULT_OK else MESIBO_RESULT_FAIL
    {
      if f.file.None? { return MESIBO_RESULT_FAIL; }
      rv := ExecuteScript(f.file.value);
    }

    method GetContext(f: Files) returns (result: Option<nat>)
      modifies this
      ensures Value() == Refreshed(old(Value()), f) && result == context
      ensures reloads == old(reloads) + if Stale(old(lastChanged), Observed(f)) then 1 else 0
    {
      var latestChange := GetLastChanged(f);
      var isFileChange := lastChanged != 0 && lastChanged != latestChange;
      lastChanged := ToInt32(latestChange);
      if isFileChange {
        var initStatus := Initialize(f);
        reloads := reloads + 1;
      }
      result := context;
    }

    /** OnMessage up to the call: the context to enter and the version of the
        listener called in it, or nothing if the listener is null. */
    method OnMessage(f: Files) returns (call: Option<(nat, nat)>)
      requires context.Some? && onMessage.Some?
      modifies this
      ensures Value() == Refreshed(old(Value()), f)
      ensures context.Some? && onMessage.Some?
      ensures call == if onMessage.value.defined
                      then Some((context.value, onMessage.value.version)) else None
    {
      var entered := GetContext(f);
      if !onMessage.value.defined { return None; }
      call := Some((entered.value, onMessage.value.version));
    }
  }

  // ---------------------------------------------------------------------
  // Runs: a module is loaded with a script that works, then used

  function Used(loaded: Script, fs: seq<Files>): Cache {
    if fs == [] then Executed(UNLOADED, loaded)
    else Refreshed(Used(loaded, fs[..|fs| - 1]), fs[|fs| - 1])
  }

  /** Whether the i-th use reloads, read off two neighbouring observations. */
  predicate ReloadsAt(fs: seq<Files>, i: nat)
    requires i < |fs|
  {
    i > 0 && Stale(ToInt32(Observed(fs[i - 1])), Observed(fs[i]))
  }

  /** The scripts that reached ExecuteScript, oldest first. */
  function Loads(loaded: Script, fs: seq<Files>): (ss: seq<Script>)
    ensures |ss| >= 1
  {
    if fs == [] then [loaded] else
    var earlier, f := Loads(loaded, fs[..|fs| - 1]), fs[|fs| - 1];
    if ReloadsAt(fs, |fs| - 1) && f.file.Some? then earlier + [f.file.value] else earlier
  }

  lemma {:induction false} LastChangedIsLastObserved(loaded: Script, fs: seq<Files>)
    ensures Used(loaded, fs).lastChanged == if fs == [] then 0 else ToInt32(Observed(fs[|fs| - 1]))
  {
    if fs != [] { LastChangedIsLastObserved(loaded, fs[..|fs| - 1]); }
  }

  /** `i` is the last script of `ss` that compiled and ran. */
  predicate LastGood(ss: seq<Script>, i: nat) {
    && i < |ss| && ss[i].compiles && ss[i].runs
    && forall j :: i < j < |ss| ==> !(ss[j].compiles && ss[j].runs)
  }

  /** In every run, the context is that of the last script loaded, the listeners
      are those of the last one that compiled and ran, and the two differ only
      while the last script loaded failed to compile or run. */
  lemma {:induction false} CacheVersions(loaded: Script, fs: seq<Files>) returns (i: nat)
    requires Succeeds(loaded)
    ensures var ss, c := Loads(loaded, fs), Used(loaded, fs);
      && LastGood(ss, i)
      && c.context == Some(ss[|ss| - 1].version)
      && c.onMessage == Some(Listener(ss[i].version, ss[i].onMessage))
      && c.onMessageStatus == Some(Listener(ss[i].version, ss[i].onMessageStatus))
      && c.onLogin == Some(Listener(ss[i].version, ss[i].onLogin))
      && (c.context.value != c.onMessage.value.version ==> !(ss[|ss| - 1].compiles && ss[|ss| - 1].runs))
  {
    if fs == [] { return 0; }
    var before, f := fs[..|fs| - 1], fs[|fs| - 1];
    i := CacheVersions(loaded, before);
    LastChangedIsLastObserved(loaded, before);
    assert ReloadsAt(fs, |fs| - 1) <==> Stale(Used(loaded, before).lastChanged, Observed(f));
    var ss := Loads(loaded, fs);
    if ss != Loads(loaded, before) && Succeeds(f.file.value) {
      i := |ss| - 1;
    }
  }

  // ---------------------------------------------------------------------
  // How often it reloads

  /** The reloads GetContext counts over a run, from the stamp the cache stores. */
  function Reloads(loaded: Script, fs: seq<Files>): nat {
    if fs == [] then 0 else
    var before, f := fs[..|fs| - 1], fs[|fs| - 1];
    Reloads(loaded, before) + if Stale(Used(loaded, before).lastChanged, Observed(f)) then 1 else 0
  }

  /** The number of neighbouring observations that differ. */
  function Changes(fs: seq<Files>): nat {
    if |fs| < 2 then 0
    else Changes(fs[..|fs| - 1]) + if Observed(fs[|fs| - 2]) != Observed(fs[|fs| - 1]) then 1 else 0
  }

  predicate Representable(t: int) {
    t != 0 && IsInt32(t)
  }

  /** With stamps that are not zero and fit an int, one reload per change. */
  lemma {:induction false} ReloadsCountChanges(loaded: Script, fs: seq<Files>)
    requires forall i :: 0 <= i < |fs| - 1 ==> Representable(Observed(fs[i]))
    ensures Reloads(loaded, fs) == Changes(fs)
  {
    if fs != [] {
      ReloadsCountChanges(loaded, fs[..|fs| - 1]);
      LastChangedIsLastObserved(loaded, fs[..|fs| - 1]);
      if |fs| >= 2 { ToInt32Exactly(Observed(fs[|fs| - 2])); }
    }
  }

  /** The condition is exact: after observing `t`, the decision to reload is right
      whatever is observed next if and only if t is not zero and fits an int. */
  lemma ReloadDecisionExact(t: int)
    ensures (forall latest :: Stale(ToInt32(t), latest) <==> t != latest) <==> Representable(t)
  {
    if !Representable(t) {
      if IsInt32(t) {
        assert !Stale(ToInt32(t), 1);
      } else {
        ToInt32Exactly(t);
        if ToInt32(t) == 0 {
          assert !Stale(ToInt32(t), t + 1);
        } else {
          assert Stale(ToInt32(t), t);
        }
      }
    }
  }

  // ---------------------------------------------------------------------
  // Freshness

  /** The file system behaves at the moments of use: a file is there when and
      only when stat succeeds, with a stamp an int can hold that is neither 0 nor
      the error code; and a stamp identifies the contents. */
  ghost predicate StampsIdentify(fs: seq<Files>) {
    && (forall i :: 0 <= i < |fs| ==>
          && (fs[i].stamp.Some? <==> fs[i].file.Some?)
          && (fs[i].stamp.Some? ==> Representable(fs[i].stamp.value) && fs[i].stamp.value != MESIBO_RESULT_FAIL))
    && (forall i, j :: 0 <= i < |fs| && 0 <= j < |fs| && fs[i].stamp.Some? && fs[i].stamp == fs[j].stamp ==>
          fs[i].file == fs[j].file)
  }

  /** Then a use that finds the file gets the context of what is in it now, and
      its listeners too if that script compiled and ran; the one thing to rely
      on is that the file did not change between loading and first use. */
  lemma {:induction false} ContextIsFresh(loaded: Script, fs: seq<Files>)
    requires Succeeds(loaded) && fs != [] && StampsIdentify(fs)
    requires fs[0].file.Some? ==> fs[0].file.value == loaded
    requires fs[|fs| - 1].file.Some?
    ensures var c, now := Used(loaded, fs), fs[|fs| - 1].file.value;
      && c.context == Some(now.version)
      && (Succeeds(now) ==> c.onMessage == Some(Listener(now.version, now.onMessage)))
  {
    if |fs| > 1 {
      var before := fs[..|fs| - 1];
      var previous, f := before[|before| - 1], fs[|fs| - 1];
      LastChangedIsLastObserved(loaded, before);
      ToInt32Exactly(Observed(previous));
      if previous.stamp == f.stamp {
        ContextIsFresh(loaded, before);
      }
    }
  }

  /** The use after `fs[..n]` enters a context of what the file then holds. */
  predicate FreshAt(loaded: Script, fs: seq<Files>, n: nat)
    requires n < |fs| && fs[n].file.Some?
  {
    Used(loaded, fs[..n + 1]).context == Some(fs[n].file.value.version)
  }

  /** Every use finds the file, with a stamp that is not zero and fits an int. */
  predicate Steady(fs: seq<Files>) {
    forall i :: 0 <= i < |fs| ==> fs[i].stamp.Some? && fs[i].file.Some? && Representable(fs[i].stamp.value)
  }

  /** What the host would have to see to: the file is still what was loaded at
      first use, and no edit between two uses keeps the stamp. */
  predicate EditsShow(loaded: Script, fs: seq<Files>)
    requires Steady(fs)
  {
    && (fs != [] ==> fs[0].file.value.version == loaded.version)
    && forall n :: 0 < n < |fs| && fs[n - 1].stamp == fs[n].stamp ==>
        fs[n - 1].file.value.version == fs[n].file.value.version
  }

  lemma UseEnters(loaded: Script, fs: seq<Files>, n: nat)
    requires Steady(fs) && n < |fs|
    ensures Used(loaded, fs[..n + 1]).context ==
      if n == 0 then Some(loaded.version)
      else if fs[n - 1].stamp == fs[n].stamp then Used(loaded, fs[..n]).context
      else Some(fs[n].file.value.version)
  {
    var before := fs[..n];
    assert fs[..n + 1][..n] == before;
    LastChangedIsLastObserved(loaded, before);
    if n > 0 { ToInt32Exactly(Observed(fs[n - 1])); }
  }

  /** Freshness, exactly: every use enters a context of the current file if and
      only if every edit shows. */
  lemma FreshExactly(loaded: Script, fs: seq<Files>)
    requires Steady(fs)
    ensures (forall n :: 0 <= n < |fs| ==> FreshAt(loaded, fs, n)) <==> EditsShow(loaded, fs)
  {
    forall n | 0 <= n < |fs| && EditsShow(loaded, fs)
      ensures FreshAt(loaded, fs, n)
    {
      FreshSoFar(loaded, fs, n);
    }
    if forall n :: 0 <= n < |fs| ==> FreshAt(loaded, fs, n) {
      if fs != [] {
        assert FreshAt(loaded, fs, 0);
        UseEnters(loaded, fs, 0);
      }
      forall n | 0 < n < |fs| && fs[n - 1].stamp == fs[n].stamp
        ensures fs[n - 1].file.value.version == fs[n].file.value.version
      {
        assert FreshAt(loaded, fs, n - 1) && FreshAt(loaded, fs, n);
        UseEnters(loaded, fs, n);
      }
    }
  }

  lemma {:induction false} FreshSoFar(loaded: Script, fs: seq<Files>, n: nat)
    requires Steady(fs) && EditsShow(loaded, fs) && n < |fs|
    ensures FreshAt(loaded, fs, n)
  {
    UseEnters(loaded, fs, n);
    if n > 0 { FreshSoFar(loaded, fs, n - 1); }
  }

  /** An edit that keeps the stamp goes unnoticed, and so do those after it for
      as long as the stamp stays: from any point of any run on, `more` uses that
      all find the stamp observed last, or any one stamp just after loading,
      change nothing of the context and the listeners. */
  lemma {:induction false} EditWithinOneStamp(loaded: Script, fs: seq<Files>, more: seq<Files>, t: int)
    requires Representable(t) && (fs != [] ==> Observed(fs[|fs| - 1]) == t)
    requires forall i :: 0 <= i < |more| ==> more[i].stamp == Some(t)
    ensures var before, after := Used(loaded, fs), Used(loaded, fs + more);
            after == before.(lastChanged := after.lastChanged)
  {
    if more == [] {
      assert fs + more == fs;
    } else {
      var sofar := fs + more[..|more| - 1];
      assert (fs + more)[..|fs + more| - 1] == sofar;
      EditWithinOneStamp(loaded, fs, more[..|more| - 1], t);
      LastChangedIsLastObserved(loaded, sofar);
      ToInt32Exactly(t);
    }
  }
}
