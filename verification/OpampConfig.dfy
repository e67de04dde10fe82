/** The OpAMP client's handling of configurations: the file on disk with its rollback copy, the hash that tells a
    changed configuration from an unchanged one, and the no-operation configuration that runs until a remote one
    arrives. */
module OpampConfig {
  import opened PData

  /** How the disk and the collector behave during a reload and after it. A write that fails leaves the contents given.
      */
  datatype Outcome = Outcome(backup: bool, writeFails: Option<string>, restarts: bool,
                             restoreFails: Option<string>, restartsBack: bool, readable: bool)

  /** `running` is the configuration of the collector, None when it is down. `applied` is the remote configuration that
      was last reloaded without an error; it is history, which the client does not keep. */
  datatype State = State(file: string, backup: Option<string>, running: Option<string>,
                         currentHash: int, initialConfigReceived: bool, runningNop: bool, applied: Option<string>)

  /** A message from the server; `body` is None when it has no collector configuration. */
  datatype Remote = Remote(body: Option<string>, outcome: Outcome, statusSent: bool)

  type Hash = string -> int

  // ---------------------------------------------------------------- the client

  function Restart(s: State, ok: bool): State { s.(running := if ok then Some(s.file) else None) }

  function Reload(s: State, contents: string, d: Outcome): (State, bool) {
    if !d.backup then (s.(backup := None), false)
    else
      var b := s.(backup := Some(s.file));
      if d.writeFails.Some? then (b.(file := d.writeFails.value), false)
      else
        var w := b.(file := contents);
        if d.restarts then (Restart(w, true), true)
        else
          var r := w.(file := if d.restoreFails.Some? then d.restoreFails.value else s.file);
          (Restart(r, d.restartsBack), false)
  }

  function UpdateCurrentHash(s: State, readable: bool, hash: Hash): State {
    s.(currentHash := if readable then hash(s.file) else hash(""))
  }

  /** Unchanged configurations are skipped, once a first one has been received. */
  predicate Skips(s: State, body: string, hash: Hash) { s.initialConfigReceived && s.currentHash == hash(body) }

  /** The new state, whether the configuration changed, and whether there was no error. */
  function Apply(s: State, body: string, d: Outcome, hash: Hash): (State, bool, bool) {
    if Skips(s, body, hash) then (s, false, true)
    else
      var (t, ok) := Reload(s, body, d);
      if !ok then (t, false, false)
      else
        var u := UpdateCurrentHash(t, d.readable, hash).(applied := Some(body));
        if d.readable then (u.(initialConfigReceived := true), true, true) else (u, true, false)
  }

  function OnRemoteConfig(s: State, r: Remote, hash: Hash): State {
    if r.body.None? then s
    else
      var (t, changed, ok) := Apply(s, r.body.value, r.outcome, hash);
      if r.statusSent && changed then t.(runningNop := false) else t
  }

  function EffectiveConfig(s: State, initial: string): string { if s.runningNop then initial else s.file }

  class Client {
    const hash: Hash
    const receivedInitialConfig: string
    var file: string
    var backup: Option<string>
    var running: Option<string>
    var currentHash: int
    var initialConfigReceived: bool
    var runningNop: bool
    ghost var applied: Option<string>

    ghost function Now(): State
      reads this
    { State(file, backup, running, currentHash, initialConfigReceived, runningNop, applied) }

    /** `initial` is the configuration file as found, `withId` the same with an instance id. */
    constructor (hash: Hash, initial: string, withId: string)
      ensures this.hash == hash && receivedInitialConfig == initial
      ensures Now() == State(withId, None, None, hash(withId), false, false, None)
    {
      this.hash, receivedInitialConfig := hash, initial;
      file, backup, running := withId, None, None;
      currentHash, initialConfigReceived, runningNop := hash(withId), false, false;
      applied := None;
    }

    method ReloadFile(contents: string, d: Outcome) returns (ok: bool)
      modifies this
      ensures (Now(), ok) == Reload(old(Now()), contents, d)
    {
      backup := None;
      if !d.backup { return false; }
      backup := Some(file);
      if d.writeFails.Some? {
        file := d.writeFails.value;
        return false;
      }
      file := contents;
      ok := d.restarts;
      if ok {
        running := Some(file);
      } else {
        file := if d.restoreFails.Some? then d.restoreFails.value else backup.value;
        running := if d.restartsBack then Some(file) else None;
      }
    }

    /** Starts the collector without operation: `nop` is the initial configuration with its pipelines emptied. */
    method Start(nop: string, d: Outcome) returns (ok: bool)
      modifies this
      ensures (Now(), ok) == Reload(old(Now()).(runningNop := true), nop, d)
      ensures !old(initialConfigReceived) && old(applied).None? ==> Started(Now())
    {
      runningNop := true;
      ok := ReloadFile(nop, d);
    }

    method ApplyRemoteConfig(newContents: string, d: Outcome) returns (changed: bool, ok: bool)
      modifies this
      ensures (Now(), changed, ok) == Apply(old(Now()), newContents, d, hash)
    {
      if initialConfigReceived && currentHash == hash(newContents) { return false, true; }
      ok := ReloadFile(newContents, d);
      if !ok { return false, false; }
      applied := Some(newContents);
      currentHash := if d.readable then hash(file) else hash("");
      if !d.readable { return true, false; }
      if !initialConfigReceived { initialConfigReceived := true; }
      changed := true;
    }

    /** What the server is told: None when the file is needed and cannot be read. */
    method GetEffectiveConfig(readable: bool) returns (body: Option<string>)
      ensures body.None? <==> !runningNop && !readable
      ensures body.Some? ==> body.value == EffectiveConfig(Now(), receivedInitialConfig)
    {
      if runningNop { return Some(receivedInitialConfig); }
      body := if readable then Some(file) else None;
    }

    method OnRemoteConfigHandler(r: Remote)
      modifies this
      ensures Now() == OnRemoteConfig(old(Now()), r, hash)
    {
      var changed := false;
      if r.body.Some? {
        var ok;
        changed, ok := ApplyRemoteConfig(r.body.value, r.outcome);
      }
      if !r.statusSent { return; }
      if changed { runningNop := false; }
    }
  }

  // ---------------------------------------------------------------- a reload that fails

  /** A reload takes hold exactly when every step of it succeeds. One that fails leaves the file as it was exactly when
      the failing write or restore, if there is one, happens to leave those contents. The collector goes on as it was
      when the copy or the write fails; after a failed restart it runs what is in the file then, or is down. */
  lemma FailedReload(s: State, contents: string, d: Outcome)
    ensures var (t, ok) := Reload(s, contents, d);
      && (ok <==> d.backup && d.writeFails.None? && d.restarts)
      && (ok ==> t.file == contents && t.running == Some(contents))
      && (!ok ==> (t.file == s.file <==>
            || !d.backup
            || (d.writeFails.Some? && d.writeFails.value == s.file)
            || (d.writeFails.None? && (d.restoreFails.None? || d.restoreFails.value == s.file))))
      && (!d.backup || d.writeFails.Some? ==> t.running == s.running)
      && (d.backup && d.writeFails.Some? ==> t.file == d.writeFails.value)
      && (d.backup && d.writeFails.None? && !d.restarts ==>
            && t.running == (if d.restartsBack then Some(t.file) else None)
            && (d.restoreFails.Some? ==> t.file == d.restoreFails.value))
      && t.backup == (if d.backup then Some(s.file) else None)
      && t.(file := s.file, backup := s.backup, running := s.running) == s
  {}

  /** A changed configuration whose file cannot be read afterwards runs, and counts as changed, but the call fails: the
      hash becomes that of the empty text and nothing else is noted. */
  lemma UnreadFile(s: State, body: string, d: Outcome, hash: Hash, statusSent: bool)
    requires !(s.initialConfigReceived && s.currentHash == hash(body))
    requires d.backup && d.writeFails.None? && d.restarts && !d.readable
    ensures var (t, changed, ok) := Apply(s, body, d, hash);
      && t.file == body && t.running == Some(body) && t.backup == Some(s.file) && t.applied == Some(body)
      && changed && !ok && t.currentHash == hash("") && t.initialConfigReceived == s.initialConfigReceived
      && OnRemoteConfig(s, Remote(Some(body), d, statusSent), hash) ==
           t.(runningNop := s.runningNop && !statusSent)
  {}

  /** An unchanged configuration is skipped: no change, no error, nothing done. */
  lemma SkippedApply(s: State, body: string, d: Outcome, hash: Hash, statusSent: bool)
    requires s.initialConfigReceived && s.currentHash == hash(body)
    ensures Apply(s, body, d, hash) == (s, false, true)
    ensures OnRemoteConfig(s, Remote(Some(body), d, statusSent), hash) == s
  {}

  /** A failed reload notes nothing either, and is not a change. */
  lemma FailedApply(s: State, body: string, d: Outcome, hash: Hash, statusSent: bool)
    requires !(s.initialConfigReceived && s.currentHash == hash(body))
    requires !(d.backup && d.writeFails.None? && d.restarts)
    ensures var (t, changed, ok) := Apply(s, body, d, hash);
      && !changed && !ok && t == Reload(s, body, d).0
      && OnRemoteConfig(s, Remote(Some(body), d, statusSent), hash) == t
  {}

  // ---------------------------------------------------------------- runs

  ghost predicate DiskWorks(d: Outcome) { d.backup && d.writeFails.None? && d.restoreFails.None? && d.readable }

  /** The disk works throughout; restarts and status calls may fail. */
  ghost predicate DiskAlwaysWorks(run: seq<Remote>) { forall i :: 0 <= i < |run| ==> DiskWorks(run[i].outcome) }

  ghost function Exec(s: State, run: seq<Remote>, hash: Hash): State {
    if run == [] then s else OnRemoteConfig(Exec(s, run[..|run| - 1], hash), run[|run| - 1], hash)
  }

  /** The state once Start is done. */
  ghost predicate Started(s: State) { s.runningNop && !s.initialConfigReceived && s.applied.None? }

  /** What holds between messages: once a configuration has been applied, the file is the last applied one and the hash
      that of the file. */
  ghost predicate FileOk(s: State, hash: Hash) {
    && (s.initialConfigReceived <==> s.applied.Some?)
    && (s.applied.Some? ==> s.file == s.applied.value && s.currentHash == hash(s.file))
  }

  /** The last configuration that came with a collector that restarted on it. */
  function LastAccepted(run: seq<Remote>): Option<string> {
    if run == [] then None
    else
      var r := run[|run| - 1];
      if r.body.Some? && r.outcome.restarts then r.body else LastAccepted(run[..|run| - 1])
  }

  /** Some accepted configuration that differed from the one before was confirmed by a status call. */
  predicate Told(run: seq<Remote>) {
    run != [] &&
    var init, r := run[..|run| - 1], run[|run| - 1];
    Told(init) || (r.body.Some? && r.outcome.restarts && r.body != LastAccepted(init) && r.statusSent)
  }

  ghost predicate CollisionFree(run: seq<Remote>, hash: Hash) {
    forall i, j :: 0 <= i < |run| && 0 <= j < |run| && run[i].body.Some? && run[j].body.Some? ==>
      (hash(run[i].body.value) == hash(run[j].body.value) ==> run[i].body == run[j].body)
  }

  lemma {:induction false} FileOkAlways(s: State, run: seq<Remote>, hash: Hash)
    requires Started(s) && DiskAlwaysWorks(run)
    ensures FileOk(Exec(s, run, hash), hash)
  {
    if run != [] { FileOkAlways(s, run[..|run| - 1], hash); }
  }

  lemma {:induction false} AcceptedIsInRun(run: seq<Remote>)
    ensures LastAccepted(run).Some? ==> exists i :: 0 <= i < |run| && run[i].body == LastAccepted(run)
  {
    if run != [] {
      AcceptedIsInRun(run[..|run| - 1]);
      if !(run[|run| - 1].body.Some? && run[|run| - 1].outcome.restarts) && LastAccepted(run).Some? {
        var i :| 0 <= i < |run| - 1 && run[..|run| - 1][i].body == LastAccepted(run);
        assert run[i].body == LastAccepted(run);
      }
    }
  }

  /** Between messages, a configuration is skipped exactly when one has been applied and hashes alike; it is the one in
      the file. */
  lemma SkipsExactlyUnchanged(s: State, run: seq<Remote>, hash: Hash, body: string)
    requires Started(s) && DiskAlwaysWorks(run)
    ensures var t := Exec(s, run, hash);
      Skips(t, body, hash) <==> t.applied.Some? && hash(t.file) == hash(body) && t.file == t.applied.value
  {
    FileOkAlways(s, run, hash);
  }

  /** With a working disk and no collision, over every run: what was applied is the last accepted configuration, and the
      no-operation flag is up exactly until a new one has been confirmed by a status call. */
  lemma {:induction false} AppliedAndTold(s: State, run: seq<Remote>, hash: Hash)
    requires Started(s) && DiskAlwaysWorks(run) && CollisionFree(run, hash)
    ensures Exec(s, run, hash).applied == LastAccepted(run)
    ensures Exec(s, run, hash).runningNop <==> !Told(run)
  {
    if run != [] {
      var last := |run| - 1;
      AppliedAndTold(s, run[..last], hash);
      FileOkAlways(s, run[..last], hash);
      SkipsSame(s, run, hash);
    }
  }

  /** Without a collision, only the last accepted configuration is skipped. */
  lemma SkipsSame(s: State, run: seq<Remote>, hash: Hash)
    requires Started(s) && DiskAlwaysWorks(run) && CollisionFree(run, hash) && run != []
    requires Exec(s, run[..|run| - 1], hash).applied == LastAccepted(run[..|run| - 1])
    ensures var t, r := Exec(s, run[..|run| - 1], hash), run[|run| - 1];
      r.body.Some? ==> (Skips(t, r.body.value, hash) <==> r.body == t.applied)
  {
    var last := |run| - 1;
    FileOkAlways(s, run[..last], hash);
    AcceptedIsInRun(run[..last]);
    if LastAccepted(run[..last]).Some? {
      var i :| 0 <= i < last && run[..last][i].body == LastAccepted(run[..last]);
      assert run[i].body == LastAccepted(run[..last]);
    }
  }

  /** What the server should be told: the last accepted configuration, or the initial one before there is any. */
  function ShouldReport(run: seq<Remote>, initial: string): string {
    if LastAccepted(run).Some? then LastAccepted(run).value else initial
  }

  /** With a working disk, and whatever restarts and status calls do, the reported configuration is the right one
      exactly when nothing was accepted yet, or some new configuration was confirmed by a status call, or the last
      accepted one happens to be the initial one. */
  lemma ReportIsRightExactly(s: State, run: seq<Remote>, hash: Hash, initial: string)
    requires Started(s) && DiskAlwaysWorks(run) && CollisionFree(run, hash)
    ensures EffectiveConfig(Exec(s, run, hash), initial) == ShouldReport(run, initial) <==>
      LastAccepted(run).None? || Told(run) || LastAccepted(run).value == initial
  {
    AppliedAndTold(s, run, hash);
    FileOkAlways(s, run, hash);
    ToldIsAccepted(run);
  }

  lemma {:induction false} ToldIsAccepted(run: seq<Remote>)
    ensures Told(run) ==> LastAccepted(run).Some?
    ensures (forall i :: 0 <= i < |run| ==> run[i].statusSent) ==> (Told(run) <==> LastAccepted(run).Some?)
  {
    if run != [] { ToldIsAccepted(run[..|run| - 1]); }
  }

  /** In particular, when every status call arrives the report is always right: the initial configuration until a remote
      one is accepted, then the last accepted one, never the no-operation one. */
  lemma ReportsLastAccepted(s: State, run: seq<Remote>, hash: Hash, initial: string)
    requires Started(s) && DiskAlwaysWorks(run) && CollisionFree(run, hash)
    requires forall i :: 0 <= i < |run| ==> run[i].statusSent
    ensures EffectiveConfig(Exec(s, run, hash), initial) == ShouldReport(run, initial)
  {
    ReportIsRightExactly(s, run, hash, initial);
    ToldIsAccepted(run);
  }

  /** One message is enough: the collector runs its configuration, the status call fails, and the initial configuration
      is reported. */
  lemma UnconfirmedIsMisreported(s: State, hash: Hash, initial: string, body: string)
    requires Started(s) && body != initial
    ensures var run := [Remote(Some(body), Outcome(true, None, true, None, true, true), false)];
      && DiskAlwaysWorks(run) && CollisionFree(run, hash) && ShouldReport(run, initial) == body
      && Exec(s, run, hash).running == Some(body) && EffectiveConfig(Exec(s, run, hash), initial) == initial
  {
    var run := [Remote(Some(body), Outcome(true, None, true, None, true, true), false)];
    assert run[..0] == [];
    ReportIsRightExactly(s, run, hash, initial);
  }

  /** Sending the last accepted configuration again never repairs a report: it is skipped whatever the status call does.
      */
  lemma ResendingDoesNotHelp(s: State, run: seq<Remote>, again: Remote, hash: Hash)
    requires Started(s) && DiskAlwaysWorks(run) && CollisionFree(run, hash)
    requires again.body.Some? && again.body == LastAccepted(run)
    ensures OnRemoteConfig(Exec(s, run, hash), again, hash) == Exec(s, run, hash)
  {
    AppliedAndTold(s, run, hash);
    FileOkAlways(s, run, hash);
  }

  // ---------------------------------------------------------------- when the disk fails

  /** A reload that fails leaves the hash of the last applied configuration, which is skipped as unchanged from then on.
      The file holds something else exactly when a failing write, or a failing restore after a failed restart, left
      something else in it. */
  lemma FailedReloadHidesTheFile(s: State, r: Remote, hash: Hash, good: Remote)
    requires FileOk(s, hash) && s.applied.Some? && good.body == s.applied
    requires r.body.Some? && !Skips(s, r.body.value, hash) && !Reload(s, r.body.value, r.outcome).1
    ensures var t, d := OnRemoteConfig(s, r, hash), r.outcome;
      && OnRemoteConfig(t, good, hash) == t && t.applied == s.applied
      && (Some(t.file) != good.body <==>
            && d.backup
            && ((d.writeFails.Some? && d.writeFails != good.body)
                || (d.writeFails.None? && d.restoreFails.Some? && d.restoreFails != good.body)))
  {}
}
