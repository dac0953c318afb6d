/** Record then replay: what a build answered, an offline run on the saved manifest answers again. */
module Replay {
  import opened Basics
  import opened Listener
  import opened ListenerInvariant
  import opened BuildTheorems
  import LockSpec
  import Hex

  // Offline runs.

  /** What an offline handler can be doing for its URL: the manifest alone decides the answer. */
  ghost predicate OfflineOk(c: Config, m: LockSpec.Manifest, h: Handler) {
    match h
    case Arrived(u) => true
    case Serving(u, info) => !c.dummyOK(u) && u in m && info == m[u]
    case Copying(u, info, content) => !c.dummyOK(u) && u in m && info == m[u] && Described(c, info, content)
    case Done(u, DummyOk) => c.dummyOK(u)
    case Done(u, NotFound) => !c.dummyOK(u) && u !in m
    case Done(u, Served(info, content)) => !c.dummyOK(u) && u in m && info == m[u] && Described(c, info, content)
    case Done(u, Failed) => !c.dummyOK(u) && u in m
    case _ => false
  }

  ghost predicate OfflineInv(c: Config, m: LockSpec.Manifest, s: Session) {
    && s.lock == LockSpec.State(m, map[], false)
    && WellFormed(c.hash, s.store)
    && forall id :: id in s.handlers ==> OfflineOk(c, m, s.handlers[id])
  }

  lemma {:induction false} OfflineRun(c: Config, m: LockSpec.Manifest, s: Session, steps: seq<Step>)
    requires IsOffline(c) && OfflineInv(c, m, s)
    ensures var t := Run(c, s, steps); OfflineInv(c, m, t) && t.disk == s.disk && KeepsBlobs(s.store, t.store)
    decreases |steps|
  {
    if steps != [] {
      OfflineStep(c, m, s, steps[0]);
      OfflineRun(c, m, Apply(c, s, steps[0]), steps[1..]);
    }
  }

  lemma OfflineStep(c: Config, m: LockSpec.Manifest, s: Session, step: Step)
    requires IsOffline(c) && OfflineInv(c, m, s)
    ensures var t := Apply(c, s, step); OfflineInv(c, m, t) && t.disk == s.disk && KeepsBlobs(s.store, t.store)
  {
    if step.Do? && step.id in s.handlers {
      OfflineReact(c, m, LocalOf(s, step.id), step.act);
    }
  }

  lemma OfflineReact(c: Config, m: LockSpec.Manifest, x: Local, a: Act)
    requires IsOffline(c) && x.lock == LockSpec.State(m, map[], false)
    requires WellFormed(c.hash, x.store) && OfflineOk(c, m, x.handler)
    ensures
      var y := React(c, x, a);
      && y.lock == x.lock && y.store == x.store && OfflineOk(c, m, y.handler) && y.handler.url == x.handler.url
    ensures
      var y := React(c, x, a);
      x.handler.url in m && Stored(x.store, m[x.handler.url].sha256) && Calm(a) && y.handler == Done(x.handler.url, Failed)
      ==> x.handler == y.handler
  {
    match (x.handler, a)
    case (Arrived(_), Lookup) =>
    case (Serving(_, _), Open(_)) =>
    case (Copying(_, _, _), Copy(_)) =>
    case _ =>
  }

  /** No failing read of the store and no lost client. */
  predicate Calm(a: Act) {
    (a.Open? ==> a.openOk) && (a.Copy? ==> a.copyOk)
  }

  ghost predicate CalmRun(steps: seq<Step>) {
    forall i :: 0 <= i < |steps| && steps[i].Do? ==> Calm(steps[i].act)
  }

  ghost predicate NeverFailed(s: Session, u: Url) {
    forall id :: id in s.handlers ==> s.handlers[id] != Done(u, Failed)
  }

  lemma {:induction false} CalmRunNeverFails(c: Config, m: LockSpec.Manifest, s: Session, steps: seq<Step>, u: Url)
    requires IsOffline(c) && OfflineInv(c, m, s) && CalmRun(steps)
    requires u in m && Stored(s.store, m[u].sha256) && NeverFailed(s, u)
    ensures NeverFailed(Run(c, s, steps), u)
    decreases |steps|
  {
    if steps != [] {
      OfflineStep(c, m, s, steps[0]);
      var t := Apply(c, s, steps[0]);
      if steps[0].Do? && steps[0].id in s.handlers {
        OfflineReact(c, m, LocalOf(s, steps[0].id), steps[0].act);
      }
      assert forall i :: 0 <= i < |steps[1..]| ==> steps[1..][i] == steps[i + 1];
      CalmRunNeverFails(c, m, t, steps[1..], u);
    }
  }

  /** Offline answers are decided by the manifest: a 404 exactly for URLs outside it, never an upstream
      request, and with no failing read or lost client every finished request for a URL whose blob is there
      was served with the recorded entry and content of the recorded digest. */
  lemma OfflineAnswers(c: Config, m: LockSpec.Manifest, store: Store, disk: Option<string>, steps: seq<Step>, id: nat)
    requires IsOffline(c) && WellFormed(c.hash, store)
    requires id in Run(c, StartOffline(LockSpec.State(m, map[], false), store, disk), steps).handlers
    ensures
      var h := Run(c, StartOffline(LockSpec.State(m, map[], false), store, disk), steps).handlers[id];
      && !h.Requesting? && !h.Streaming? && !h.Forwarding? && !h.Committed?
      && (h.Done? && !c.dummyOK(h.url) ==>
          && (h.outcome.NotFound? <==> h.url !in m)
          && (h.outcome.Served? || h.outcome.Failed? || h.outcome.NotFound?)
          && (h.outcome.Served? ==> h.outcome.info == m[h.url] && Described(c, h.outcome.info, h.outcome.content))
          && (h.url in m && Stored(store, m[h.url].sha256) && CalmRun(steps) ==> h.outcome.Served?))
  {
    var s0 := StartOffline(LockSpec.State(m, map[], false), store, disk);
    OfflineRun(c, m, s0, steps);
    var h := Run(c, s0, steps).handlers[id];
    assert OfflineOk(c, m, h);
    if h.url in m && Stored(store, m[h.url].sha256) && CalmRun(steps) {
      CalmRunNeverFails(c, m, s0, steps, h.url);
    }
  }

  /** From any reachable offline state an unfinished request for a recorded URL can be served, however far it
      has come: by at most three steps of its own handler. Those that do not fit its phase change nothing. */
  lemma OfflineProgress(c: Config, m: LockSpec.Manifest, s: Session, id: nat)
    requires IsOffline(c) && OfflineInv(c, m, s)
    requires id in s.handlers && !s.handlers[id].Done? && !c.dummyOK(s.handlers[id].url)
    requires s.handlers[id].url in m && Stored(s.store, m[s.handlers[id].url].sha256)
    ensures
      var t := Run(c, s, [Do(id, Lookup), Do(id, Open(true)), Do(id, Copy(true))]);
      id in t.handlers && t.handlers[id].Done? && t.handlers[id].outcome.Served?
  {
    assert OfflineOk(c, m, s.handlers[id]);
    var s1 := Apply(c, s, Do(id, Lookup));
    var s2 := Apply(c, s1, Do(id, Open(true)));
    var s3 := Apply(c, s2, Do(id, Copy(true)));
    assert s3.handlers[id].Done? && s3.handlers[id].outcome.Served?;
    RunThree(c, s, Do(id, Lookup), Do(id, Open(true)), Do(id, Copy(true)));
  }

  lemma RunThree(c: Config, s: Session, a: Step, b: Step, d: Step)
    ensures Run(c, s, [a, b, d]) == Apply(c, Apply(c, Apply(c, s, a), b), d)
  {
    assert [a, b, d][1..] == [b, d] && [b, d][1..] == [d] && [d][1..] == [];
    assert Run(c, s, [a, b, d]) == Run(c, Apply(c, s, a), [b, d]);
    assert Run(c, Apply(c, s, a), [b, d]) == Run(c, Apply(c, Apply(c, s, a), b), [d]);
  }

  // From the build to the offline run.

  /** Nothing that the build stored was lost on the way, and what is there still hashes to its key. */
  ghost predicate Preserved(h: HashFn, before: Store, after: Store) {
    WellFormed(h, after) && KeepsBlobs(before, after)
  }

  /** The manifest that the close writes is the one in memory then and is not touched afterwards, and an answer
      given before the close is in it, with its blob in the store at the end of the build, stragglers included.
      A store that covered the old manifest covers the new one; a forced refresh does not need that. */
  lemma Handover(b: Config, loaded: LockSpec.State, store: Store, disk: Option<string>, forget: bool,
                 before: seq<Step>, after: seq<Step>)
    requires IsBuild(b) && LockSpec.Lawful(b.codec) && WellFormed(b.hash, store)
    requires LockSpec.Load(b.codec, b.lock, disk) == Some(loaded)
    requires !Run(b, StartBuild(b, loaded, store, disk, forget), before).closed
    ensures
      var s := Run(b, StartBuild(b, loaded, store, disk, forget), before);
      var t := Run(b, Apply(b, s, Close(LockSpec.Written)), after);
      && Pins(b, s) && Contents(b, s)
      && t.disk.Some? && b.codec.unmarshal(t.disk.value) == Some(s.lock.blobs)
      && KeepsBlobs(s.store, t.store)
      && (forget || Covers(store, loaded.blobs) ==> Covers(t.store, s.lock.blobs))
  {
    var s0 := StartBuild(b, loaded, store, disk, forget);
    var s := Run(b, s0, before);
    var closed := Apply(b, s, Close(LockSpec.Written));
    StartPins(b, loaded, store, disk, forget);
    RunPins(b, s0, before);
    RunContents(b, s0, before);
    SavedManifest(b, loaded, store, disk, forget, before);
    RunContents(b, closed, after);
    ClosedKeepsDisk(b, closed, after);
    var t := Run(b, closed, after);
    if forget || Covers(store, loaded.blobs) {
      BuildCovers(b, loaded, store, disk, forget, before);
      CoversKept(s.store, t.store, s.lock.blobs);
    }
  }

  lemma {:induction false} ClosedKeepsDisk(c: Config, s: Session, steps: seq<Step>)
    requires s.closed
    ensures var t := Run(c, s, steps); t.disk == s.disk && t.closed
    decreases |steps|
  {
    if steps != [] {
      ClosedKeepsDisk(c, Apply(c, s, steps[0]), steps[1..]);
    }
  }

  /** Build, close, and go offline. For any interleaving of the build's handlers before and after the close,
      any request of the build that was answered without error before the close, any store that preserves
      the build's, and any interleaving of the offline handlers: a finished offline request for the same URL
      was not refused, and when it was served it got the build's entry (so the recorded headers) and the
      build's content, unless the two contents are a collision of the hash. Without a failing read or a lost
      client it was served. */
  lemma RecordThenReplay(b: Config, loaded: LockSpec.State, store: Store, disk: Option<string>, forget: bool,
                         before: seq<Step>, after: seq<Step>, id: nat,
                         o: Config, kept: Store, offline: seq<Step>, id': nat)
    requires IsBuild(b) && LockSpec.Lawful(b.codec) && WellFormed(b.hash, store)
    requires LockSpec.Load(b.codec, b.lock, disk) == Some(loaded)
    requires !Run(b, StartBuild(b, loaded, store, disk, forget), before).closed
    requires IsOffline(o) && o.hash == b.hash && o.codec == b.codec
    requires
      var s := Run(b, StartBuild(b, loaded, store, disk, forget), before);
      var t := Run(b, Apply(b, s, Close(LockSpec.Written)), after);
      && id in s.handlers && Answered(s.handlers[id])
      && !o.dummyOK(s.handlers[id].url)
      && Preserved(b.hash, t.store, kept)
    ensures
      var s := Run(b, StartBuild(b, loaded, store, disk, forget), before);
      var t := Run(b, Apply(b, s, Close(LockSpec.Written)), after);
      var manifest := LockSpec.Load(o.codec, o.lock, t.disk);
      && manifest.Some?
      && var w := Run(o, StartOffline(manifest.value, kept, t.disk), offline);
         id' in w.handlers && w.handlers[id'].url == s.handlers[id].url && w.handlers[id'].Done? ==>
           var answer := w.handlers[id'].outcome;
           && (answer.Served? || answer.Failed?)
           && (CalmRun(offline) ==> answer.Served?)
           && (answer.Served? ==>
                 && answer.info == EntryOf(s.handlers[id])
                 && (s.handlers[id].outcome.Recorded? ==>
                       var received := s.handlers[id].outcome.reply.headers;
                       && (forall k :: k in answer.info.headers <==> k in received && k in b.headersToCache)
                       && (forall k :: k in answer.info.headers ==> answer.info.headers[k] == received[k].first))
                 && (answer.content == ContentOf(s.handlers[id])
                     || Collides(b.hash, answer.content, ContentOf(s.handlers[id]))))
  {
    var s := Run(b, StartBuild(b, loaded, store, disk, forget), before);
    var t := Run(b, Apply(b, s, Close(LockSpec.Written)), after);
    Handover(b, loaded, store, disk, forget, before, after);
    AnswerDescribed(b, s, id);
    var m := s.lock.blobs;
    assert LockSpec.Load(o.codec, o.lock, t.disk) == Some(LockSpec.State(m, map[], false));
    assert Stored(kept, EntryOf(s.handlers[id]).sha256);
    var s0 := StartOffline(LockSpec.State(m, map[], false), kept, t.disk);
    var w := Run(o, s0, offline);
    if id' in w.handlers && w.handlers[id'].url == s.handlers[id].url && w.handlers[id'].Done? {
      OfflineAnswers(o, m, kept, t.disk, offline, id');
      OfflineRun(o, m, s0, offline);
      assert OfflineOk(o, m, w.handlers[id']);
    }
  }
}
