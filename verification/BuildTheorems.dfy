/** Theorems about whole builds: pins, races, the exact saved manifest, and rebuilding. */
module BuildTheorems {
  import opened Basics
  import opened Listener
  import opened ListenerInvariant
  import LockSpec
  import Hex

  /** Whatever the upstream answers and however the handlers interleave: a key of the old manifest that is in
      the new one has its old entry, and an entry once in the new manifest stays as it is. */
  lemma PinsNeverMove(c: Config, loaded: LockSpec.State, store: Store, disk: Option<string>, early: seq<Step>, late: seq<Step>)
    requires IsBuild(c) && LockSpec.Lawful(c.codec) && LockSpec.Load(c.codec, c.lock, disk) == Some(loaded)
    ensures
      var s := Run(c, StartBuild(c, loaded, store, disk, false), early);
      var t := Run(c, s, late);
      && (forall k :: k in loaded.blobs && k in t.lock.blobs ==> t.lock.blobs[k] == loaded.blobs[k])
      && (forall k :: k in s.lock.blobs ==> Pinned(t.lock, k, s.lock.blobs[k]))
  {
    var s0 := StartBuild(c, loaded, store, disk, false);
    var s := Run(c, s0, early);
    StartPins(c, loaded, store, disk, false);
    RunPins(c, s0, early);
    RunPins(c, s, late);
    assert Run(c, s, late).lock.previous == loaded.blobs;
  }

  /** The loser of a race, over a whole run: a fetch that has committed something else than what was recorded
      meanwhile never gets recorded, and when its handler is done it has failed. */
  lemma {:induction false} RaceLost(c: Config, s: Session, id: nat, u: Url, steps: seq<Step>)
    requires IsBuild(c) && LockSpec.Lawful(c.codec) && Pins(c, s) && id in s.handlers
    requires
      || s.handlers[id] == Done(u, Failed)
      || (s.handlers[id].Committed? && s.handlers[id].url == u && u in s.lock.blobs && s.lock.blobs[u] != s.handlers[id].info)
    ensures
      var t := Run(c, s, steps);
      && id in t.handlers && (t.handlers[id] == s.handlers[id] || t.handlers[id] == Done(u, Failed))
      && (u in s.lock.blobs ==> u in t.lock.blobs && t.lock.blobs[u] == s.lock.blobs[u])
    decreases |steps|
  {
    if steps != [] {
      var t := Apply(c, s, steps[0]);
      ApplyPins(c, s, steps[0]);
      assert u in s.lock.blobs ==> Pinned(t.lock, u, s.lock.blobs[u]);
      if steps[0].Do? && steps[0].id == id && steps[0].act.Record? && s.handlers[id].Committed? {
        RecordRace(c, s, id, steps[0].act.closeOk);
      }
      RaceLost(c, t, id, u, steps[1..]);
    }
  }

  /** Racing fetches of one URL: a fetch is recorded exactly when nobody recorded something different before
      it; otherwise its handler fails and the manifest is untouched. */
  lemma RecordRace(c: Config, s: Session, id: nat, closeOk: bool)
    requires IsBuild(c) && Pins(c, s) && id in s.handlers && s.handlers[id].Committed?
    ensures
      var Committed(u, reply, info) := s.handlers[id];
      var t := Apply(c, s, Do(id, Record(closeOk)));
      && (t.handlers[id] == Done(u, Recorded(reply, info, closeOk))
          <==> u !in s.lock.blobs || s.lock.blobs[u] == info)
      && (u in s.lock.blobs && s.lock.blobs[u] != info ==> t.handlers[id] == Done(u, Failed) && t.lock == s.lock)
  {
  }

  /** Two successful answers for one URL in one build carry one entry, whether fetched or served. */
  lemma AnswersAgree(c: Config, s: Session, i: nat, j: nat)
    requires Pins(c, s) && Contents(c, s) && i in s.handlers && j in s.handlers
    requires Answered(s.handlers[i]) && Answered(s.handlers[j]) && s.handlers[i].url == s.handlers[j].url
    ensures EntryOf(s.handlers[i]) == EntryOf(s.handlers[j])
    ensures ContentOf(s.handlers[i]) == ContentOf(s.handlers[j])
         || Collides(c.hash, ContentOf(s.handlers[i]), ContentOf(s.handlers[j]))
  {
    AnswerDescribed(c, s, i);
    AnswerDescribed(c, s, j);
  }

  /** The handler returned no error and its URL is to be replayed: served from the store, or fetched and recorded. */
  predicate Answered(h: Handler) {
    h.Done? && (h.outcome.Served? || (h.outcome.Recorded? && h.outcome.closed))
  }

  function EntryOf(h: Handler): LockSpec.BlobInfo
    requires Answered(h)
  {
    if h.outcome.Served? then h.outcome.info else h.outcome.recorded
  }

  function ContentOf(h: Handler): Bytes
    requires Answered(h)
  {
    if h.outcome.Served? then h.outcome.content else h.outcome.reply.body
  }

  lemma AnswerDescribed(c: Config, s: Session, id: nat)
    requires Pins(c, s) && Contents(c, s) && id in s.handlers && Answered(s.handlers[id])
    ensures var h := s.handlers[id]; Pinned(s.lock, h.url, EntryOf(h)) && Describes(c, s.store, EntryOf(h), ContentOf(h))
    ensures
      var h := s.handlers[id];
      h.outcome.Recorded? ==> EntryOf(h).headers == FilterHeaders(c.headersToCache, h.outcome.reply.headers)
  {
    var h := s.handlers[id];
    assert HandlerPinned(c, s.lock, h) && HandlerStored(c, s.store, h);
    Hex.DecodeEncode(c.hash(ContentOf(h)));
  }

  // The exact key set.

  predicate LookedUp(h: Handler) {
    !h.Arrived?
  }

  /** The handler is the reason why k is in the manifest: it asked for a key of the previous run, or it
      recorded a fetch. */
  predicate Contributes(c: Config, previous: LockSpec.Manifest, h: Handler, k: Url) {
    h.url == k && !c.lock.noCache(k)
    && ((LookedUp(h) && k in previous) || (h.Done? && h.outcome.Recorded?))
  }

  ghost predicate Wanted(c: Config, s: Session, k: Url) {
    exists id :: id in s.handlers && Contributes(c, s.lock.previous, s.handlers[id], k)
  }

  ghost predicate Exact(c: Config, s: Session) {
    forall k :: k in s.lock.blobs <==> Wanted(c, s, k)
  }

  lemma ReactContributes(c: Config, x: Local, a: Act, k: Url)
    requires IsBuild(c)
    ensures
      var y := React(c, x, a);
      && y.lock.previous == x.lock.previous
      && (Contributes(c, x.lock.previous, x.handler, k) ==> Contributes(c, x.lock.previous, y.handler, k))
      && (k in x.lock.blobs ==> k in y.lock.blobs)
      && (Contributes(c, x.lock.previous, y.handler, k) && !Contributes(c, x.lock.previous, x.handler, k)
          ==> k in y.lock.blobs)
      && (k in y.lock.blobs && k !in x.lock.blobs ==> Contributes(c, x.lock.previous, y.handler, k))
  {
    match (x.handler, a)
    case (Arrived(_), Lookup) =>
    case (Committed(_, _, _), Record(_)) =>
    case (Serving(_, _), Open(_)) =>
    case (Copying(_, _, _), Copy(_)) =>
    case (Requesting(_), Upstream(_, _)) =>
    case (Forwarding(_, _), Forward(_)) =>
    case (Streaming(_, _, _, _, _), Chunk(_, _)) =>
    case (Streaming(_, _, _, _, _), Commit(_)) =>
    case _ => assert React(c, x, a) == x;
  }

  lemma ApplyExact(c: Config, s: Session, step: Step)
    requires IsBuild(c) && Exact(c, s)
    ensures Exact(c, Apply(c, s, step))
  {
    var t := Apply(c, s, step);
    forall k
      ensures k in t.lock.blobs <==> Wanted(c, t, k)
    {
      if step.Do? && step.id in s.handlers {
        ReactContributes(c, LocalOf(s, step.id), step.act, k);
        if k in s.lock.blobs {
          var id :| id in s.handlers && Contributes(c, s.lock.previous, s.handlers[id], k);
          assert Contributes(c, t.lock.previous, t.handlers[id], k);
        } else if k in t.lock.blobs {
          assert Contributes(c, t.lock.previous, t.handlers[step.id], k);
        }
      } else {
        assert t.lock.blobs == s.lock.blobs && t.lock.previous == s.lock.previous;
        if Wanted(c, s, k) {
          var id :| id in s.handlers && Contributes(c, s.lock.previous, s.handlers[id], k);
          assert Contributes(c, t.lock.previous, t.handlers[id], k);
        }
        if Wanted(c, t, k) {
          var id :| id in t.handlers && Contributes(c, t.lock.previous, t.handlers[id], k);
          assert Contributes(c, s.lock.previous, s.handlers[id], k);
        }
      }
    }
  }

  lemma {:induction false} RunExact(c: Config, s: Session, steps: seq<Step>)
    requires IsBuild(c) && Exact(c, s)
    ensures Exact(c, Run(c, s, steps))
    decreases |steps|
  {
    if steps != [] {
      ApplyExact(c, s, steps[0]);
      RunExact(c, Apply(c, s, steps[0]), steps[1..]);
    }
  }

  /** The manifest that Close writes has exactly the wanted keys, and is the one held in memory. */
  lemma SavedManifest(c: Config, loaded: LockSpec.State, store: Store, disk: Option<string>, forget: bool,
                      steps: seq<Step>)
    requires IsBuild(c) && LockSpec.Lawful(c.codec)
    requires LockSpec.Load(c.codec, c.lock, disk) == Some(loaded)
    requires !Run(c, StartBuild(c, loaded, store, disk, forget), steps).closed
    ensures
      var s := Run(c, StartBuild(c, loaded, store, disk, forget), steps);
      var t := Apply(c, s, Close(LockSpec.Written));
      && t.disk.Some? && c.codec.unmarshal(t.disk.value) == Some(s.lock.blobs)
      && s.lock.previous == (if forget then map[] else loaded.blobs)
      && forall k :: k in s.lock.blobs <==> Wanted(c, s, k)
  {
    var s0 := StartBuild(c, loaded, store, disk, forget);
    StartPins(c, loaded, store, disk, forget);
    RunPins(c, s0, steps);
    forall k
      ensures k in s0.lock.blobs <==> Wanted(c, s0, k)
    {
    }
    RunExact(c, s0, steps);
  }

  // Rebuilding.

  /** Only URLs of the manifest m are ever requested. */
  ghost predicate OnlyKnown(c: Config, m: LockSpec.Manifest, steps: seq<Step>) {
    forall i :: 0 <= i < |steps| && steps[i].Arrive? ==> steps[i].url in m && !c.lock.noCache(steps[i].url)
  }

  /** The handler never turned to the upstream. */
  predicate NoFetch(h: Handler) {
    h.Arrived? || h.Serving? || h.Copying? || (h.Done? && (h.outcome.Served? || h.outcome.Failed?))
  }

  ghost predicate Quiet(c: Config, s: Session) {
    forall id :: id in s.handlers ==>
      NoFetch(s.handlers[id]) && s.handlers[id].url in s.lock.previous && !c.lock.noCache(s.handlers[id].url)
  }

  lemma {:induction false} RunQuiet(c: Config, s: Session, steps: seq<Step>)
    requires IsBuild(c) && OnlyKnown(c, s.lock.previous, steps) && Quiet(c, s)
    ensures var t := Run(c, s, steps); Quiet(c, t) && t.lock.previous == s.lock.previous
    decreases |steps|
  {
    if steps != [] {
      var t := Apply(c, s, steps[0]);
      if steps[0].Do? && steps[0].id in s.handlers {
        ReactContributes(c, LocalOf(s, steps[0].id), steps[0].act, s.handlers[steps[0].id].url);
        assert NoFetch(t.handlers[steps[0].id]);
      }
      assert forall i :: 0 <= i < |steps[1..]| ==> steps[1..][i] == steps[i + 1];
      RunQuiet(c, t, steps[1..]);
    }
  }

  function Requested(s: Session): set<Url> {
    set id | id in s.handlers && LookedUp(s.handlers[id]) :: s.handlers[id].url
  }

  function Restrict(m: LockSpec.Manifest, keys: set<Url>): LockSpec.Manifest {
    map k | k in m && k in keys :: m[k]
  }

  /** Rebuilding with URLs that are all in the manifest never fetches, and what is saved is the old manifest
      restricted to the URLs asked for: the order of the requests does not matter. */
  lemma Rebuild(c: Config, loaded: LockSpec.State, store: Store, disk: Option<string>, steps: seq<Step>)
    requires IsBuild(c) && LockSpec.Lawful(c.codec)
    requires LockSpec.Load(c.codec, c.lock, disk) == Some(loaded)
    requires OnlyKnown(c, loaded.blobs, steps)
    requires !Run(c, StartBuild(c, loaded, store, disk, false), steps).closed
    ensures
      var s := Run(c, StartBuild(c, loaded, store, disk, false), steps);
      var t := Apply(c, s, Close(LockSpec.Written));
      && (forall id :: id in s.handlers ==> NoFetch(s.handlers[id]))
      && t.disk.Some? && c.codec.unmarshal(t.disk.value) == Some(Restrict(loaded.blobs, Requested(s)))
  {
    var s0 := StartBuild(c, loaded, store, disk, false);
    var s := Run(c, s0, steps);
    SavedManifest(c, loaded, store, disk, false, steps);
    RunQuiet(c, s0, steps);
    assert forall k :: k in s.lock.blobs && k in s.lock.previous ==> s.lock.blobs[k] == s.lock.previous[k] by {
      StartPins(c, loaded, store, disk, false);
      RunPins(c, s0, steps);
    }
    QuietIsRestriction(c, s);
  }

  /** When nobody fetched, the wanted keys are the requested ones. */
  lemma QuietIsRestriction(c: Config, s: Session)
    requires Quiet(c, s) && Exact(c, s)
    requires forall k :: k in s.lock.blobs && k in s.lock.previous ==> s.lock.blobs[k] == s.lock.previous[k]
    ensures s.lock.blobs == Restrict(s.lock.previous, Requested(s))
  {
    var r := Restrict(s.lock.previous, Requested(s));
    forall k
      ensures k in s.lock.blobs ==> k in r && s.lock.blobs[k] == r[k]
      ensures k in r ==> k in s.lock.blobs
    {
      if k in s.lock.blobs {
        var id :| id in s.handlers && Contributes(c, s.lock.previous, s.handlers[id], k);
        assert k in Requested(s);
      }
      if k in r {
        var id :| id in s.handlers && LookedUp(s.handlers[id]) && s.handlers[id].url == k;
        assert Contributes(c, s.lock.previous, s.handlers[id], k);
      }
    }
  }
}
