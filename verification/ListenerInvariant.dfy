/** What every step of a build keeps: entries stay pinned, the store stays well-formed, blobs are there before
    they are recorded. */
module ListenerInvariant {
  import opened Basics
  import opened Listener
  import LockSpec
  import Hex

  ghost predicate Pinned(lock: LockSpec.State, u: Url, info: LockSpec.BlobInfo) {
    u in lock.blobs && lock.blobs[u] == info
  }

  /** A handler that fetches does so for a key that the previous run did not have. */
  ghost predicate MayFetch(c: Config, lock: LockSpec.State, u: Url) {
    c.lock.noCache(u) || u !in lock.previous
  }

  /** What a handler knows about the manifest. */
  ghost predicate HandlerPinned(c: Config, lock: LockSpec.State, h: Handler) {
    match h
    case Arrived(u) => true
    case Serving(u, info) => !c.lock.noCache(u) && Pinned(lock, u, info)
    case Copying(u, info, _) => !c.lock.noCache(u) && Pinned(lock, u, info)
    case Requesting(u) => MayFetch(c, lock, u)
    case Forwarding(u, reply) => MayFetch(c, lock, u) && (c.lock.noCache(u) || reply.status != OK)
    case Streaming(u, reply, _, _, _) => u !in lock.previous && !c.lock.noCache(u) && reply.status == OK
    case Committed(u, reply, _) => u !in lock.previous && !c.lock.noCache(u) && reply.status == OK
    case Done(u, outcome) =>
      match outcome
      case Served(info, _) => !c.lock.noCache(u) && Pinned(lock, u, info)
      case Recorded(reply, info, _) => !c.lock.noCache(u) && reply.status == OK && Pinned(lock, u, info)
      case Forwarded(reply) => c.lock.noCache(u) || reply.status != OK
      case NotFound => false
      case DummyOk => false
      case Failed => true
  }

  /** The entry names the digest of the content. */
  ghost predicate Described(c: Config, info: LockSpec.BlobInfo, content: Bytes) {
    Hex.Decode(info.sha256) == Some(c.hash(content))
  }

  /** And the content's blob is there. */
  ghost predicate Describes(c: Config, store: Store, info: LockSpec.BlobInfo, content: Bytes) {
    Described(c, info, content) && c.hash(content) in store
  }

  /** What a handler knows about the store. */
  ghost predicate HandlerStored(c: Config, store: Store, h: Handler) {
    match h
    case Copying(_, info, content) => Describes(c, store, info, content)
    case Streaming(_, reply, pos, data, absorbed) => pos <= |reply.body| && data == absorbed == reply.body[..pos]
    case Committed(_, reply, info) =>
      info == InfoFor(c, c.hash(reply.body), reply.headers) && c.hash(reply.body) in store
    case Done(_, Served(info, content)) => Describes(c, store, info, content)
    case Done(_, Recorded(reply, info, _)) =>
      info == InfoFor(c, c.hash(reply.body), reply.headers) && c.hash(reply.body) in store
    case _ => true
  }

  ghost predicate LockOk(c: Config, lock: LockSpec.State) {
    && (forall k :: k in lock.blobs && k in lock.previous ==> lock.blobs[k] == lock.previous[k])
    && (forall k :: k in lock.blobs ==> !c.lock.noCache(k))
  }

  /** The manifest's side of the invariant. It needs nothing of the store. */
  ghost predicate Pins(c: Config, s: Session) {
    && LockOk(c, s.lock)
    && LockSpec.Sound(c.codec, s.lock, s.disk)
    && forall id :: id in s.handlers ==> HandlerPinned(c, s.lock, s.handlers[id])
  }

  /** The store's side. It needs nothing of the manifest. */
  ghost predicate Contents(c: Config, s: Session) {
    && WellFormed(c.hash, s.store)
    && forall id :: id in s.handlers ==> HandlerStored(c, s.store, s.handlers[id])
  }

  /** Every entry, current or of the previous run, has its blob. */
  ghost predicate Covered(s: Session) {
    Covers(s.store, s.lock.blobs) && Covers(s.store, s.lock.previous)
  }

  /** Entries only appear, and the previous run's map stays. */
  ghost predicate Extends(lock: LockSpec.State, lock': LockSpec.State) {
    && lock'.previous == lock.previous
    && forall k :: k in lock.blobs ==> Pinned(lock', k, lock.blobs[k])
  }

  ghost predicate KeepsBlobs(store: Store, store': Store) {
    forall d :: d in store ==> d in store'
  }

  // The manifest.

  ghost predicate PinStep(c: Config, x: Local, y: Local) {
    && LockOk(c, y.lock) && HandlerPinned(c, y.lock, y.handler)
    && Extends(x.lock, y.lock) && (y.lock == x.lock || y.lock.dirty)
  }

  lemma LookupPins(c: Config, x: Local)
    requires IsBuild(c) && LockOk(c, x.lock) && x.handler.Arrived?
    ensures PinStep(c, x, React(c, x, Lookup))
  {
    assert !LockSpec.GetBlob(c.lock, x.lock, x.handler.url).1.Broken?;
  }

  lemma RecordPins(c: Config, x: Local, closeOk: bool)
    requires IsBuild(c) && LockOk(c, x.lock) && HandlerPinned(c, x.lock, x.handler) && x.handler.Committed?
    ensures PinStep(c, x, React(c, x, Record(closeOk)))
  {
  }

  lemma OtherPins(c: Config, x: Local, a: Act)
    requires LockOk(c, x.lock) && HandlerPinned(c, x.lock, x.handler)
    requires !x.handler.Arrived? && !x.handler.Committed?
    ensures PinStep(c, x, React(c, x, a)) && React(c, x, a).lock == x.lock
  {
    match x.handler
    case Serving(_, _) =>
    case Copying(_, _, _) =>
    case Requesting(_) =>
    case Forwarding(_, _) =>
    case Streaming(_, _, _, _, _) =>
    case Done(_, _) =>
  }

  lemma ReactPins(c: Config, x: Local, a: Act)
    requires IsBuild(c) && LockOk(c, x.lock) && HandlerPinned(c, x.lock, x.handler)
    ensures PinStep(c, x, React(c, x, a))
  {
    match x.handler
    case Arrived(_) =>
      if a.Lookup? {
        LookupPins(c, x);
      } else {
        assert React(c, x, a) == x;
      }
    case Committed(_, _, _) =>
      if a.Record? {
        RecordPins(c, x, a.closeOk);
      } else {
        assert React(c, x, a) == x;
      }
    case _ => OtherPins(c, x, a);
  }

  lemma HandlerPinnedExtends(c: Config, lock: LockSpec.State, lock': LockSpec.State, h: Handler)
    requires HandlerPinned(c, lock, h) && Extends(lock, lock')
    ensures HandlerPinned(c, lock', h)
  {
  }

  lemma ApplyPins(c: Config, s: Session, step: Step)
    requires IsBuild(c) && LockSpec.Lawful(c.codec) && Pins(c, s)
    ensures var t := Apply(c, s, step); Pins(c, t) && Extends(s.lock, t.lock)
  {
    var t := Apply(c, s, step);
    if step.Do? && step.id in s.handlers {
      ReactPins(c, LocalOf(s, step.id), step.act);
      forall i | i in t.handlers && i != step.id
        ensures HandlerPinned(c, t.lock, t.handlers[i])
      {
        HandlerPinnedExtends(c, s.lock, t.lock, s.handlers[i]);
      }
    } else {
      forall i | i in s.handlers
        ensures HandlerPinned(c, t.lock, s.handlers[i])
      {
        HandlerPinnedExtends(c, s.lock, t.lock, s.handlers[i]);
      }
    }
  }

  lemma {:induction false} RunPins(c: Config, s: Session, steps: seq<Step>)
    requires IsBuild(c) && LockSpec.Lawful(c.codec) && Pins(c, s)
    ensures var t := Run(c, s, steps); Pins(c, t) && Extends(s.lock, t.lock)
    decreases |steps|
  {
    if steps != [] {
      ApplyPins(c, s, steps[0]);
      RunPins(c, Apply(c, s, steps[0]), steps[1..]);
    }
  }

  lemma StartPins(c: Config, loaded: LockSpec.State, store: Store, disk: Option<string>, forget: bool)
    requires IsBuild(c) && LockSpec.Lawful(c.codec) && LockSpec.Load(c.codec, c.lock, disk) == Some(loaded)
    ensures
      var s := StartBuild(c, loaded, store, disk, forget);
      && Pins(c, s) && s.lock.blobs == map[] && s.lock.previous == (if forget then map[] else loaded.blobs)
      && (disk.None? ==> s.lock == LockSpec.State(map[], map[], true))
  {
  }

  // The store.

  ghost predicate StoreStep(c: Config, x: Local, y: Local) {
    WellFormed(c.hash, y.store) && HandlerStored(c, y.store, y.handler) && KeepsBlobs(x.store, y.store)
  }

  lemma ChunkStores(c: Config, x: Local, n: nat, fault: Fault)
    requires WellFormed(c.hash, x.store) && HandlerStored(c, x.store, x.handler) && x.handler.Streaming?
    ensures StoreStep(c, x, React(c, x, Chunk(n, fault)))
  {
    var Streaming(u, reply, pos, data, absorbed) := x.handler;
    if pos + n <= |reply.body| {
      assert reply.body[..pos + n] == reply.body[..pos] + reply.body[pos..pos + n];
    }
  }

  /** Only a writer that never failed reaches its commit, so what is stored is what was hashed. */
  lemma CommitStores(c: Config, x: Local, result: CommitResult)
    requires WellFormed(c.hash, x.store) && HandlerStored(c, x.store, x.handler) && x.handler.Streaming?
    ensures StoreStep(c, x, React(c, x, Commit(result)))
  {
    var Streaming(u, reply, pos, data, absorbed) := x.handler;
    if pos == |reply.body| {
      assert reply.body[..pos] == reply.body;
    }
  }

  lemma ReactStores(c: Config, x: Local, a: Act)
    requires WellFormed(c.hash, x.store) && HandlerStored(c, x.store, x.handler)
    ensures StoreStep(c, x, React(c, x, a))
  {
    match x.handler
    case Streaming(_, _, _, _, _) =>
      if a.Chunk? {
        ChunkStores(c, x, a.n, a.fault);
      } else if a.Commit? {
        CommitStores(c, x, a.result);
      } else {
        assert React(c, x, a) == x;
      }
    case Arrived(_) =>
    case Serving(_, _) =>
    case Copying(_, _, _) =>
    case Requesting(_) =>
    case Forwarding(_, _) =>
    case Committed(_, _, _) =>
    case Done(_, _) =>
  }

  lemma ApplyContents(c: Config, s: Session, step: Step)
    requires Contents(c, s)
    ensures var t := Apply(c, s, step); Contents(c, t) && KeepsBlobs(s.store, t.store)
  {
    if step.Do? && step.id in s.handlers {
      ReactStores(c, LocalOf(s, step.id), step.act);
    }
  }

  lemma {:induction false} RunContents(c: Config, s: Session, steps: seq<Step>)
    requires Contents(c, s)
    ensures var t := Run(c, s, steps); Contents(c, t) && KeepsBlobs(s.store, t.store)
    decreases |steps|
  {
    if steps != [] {
      ApplyContents(c, s, steps[0]);
      RunContents(c, Apply(c, s, steps[0]), steps[1..]);
    }
  }

  // Both.

  lemma CoversKept(before: Store, after: Store, m: LockSpec.Manifest)
    requires Covers(before, m) && KeepsBlobs(before, after)
    ensures Covers(after, m)
  {
    forall k | k in m
      ensures Stored(after, m[k].sha256)
    {
      assert Stored(before, m[k].sha256);
    }
  }

  ghost predicate LocalCovered(x: Local) {
    Covers(x.store, x.lock.blobs) && Covers(x.store, x.lock.previous)
  }

  lemma LookupCovers(c: Config, x: Local)
    requires LocalCovered(x) && x.handler.Arrived?
    ensures LocalCovered(React(c, x, Lookup))
  {
    LookupMoves(c, x);
    var u := x.handler.url;
    if u in x.lock.previous {
      CoversUpdate(x.store, x.lock.blobs, u, x.lock.previous[u]);
    }
  }

  lemma LookupMoves(c: Config, x: Local)
    requires x.handler.Arrived?
    ensures
      var y := React(c, x, Lookup);
      var u := x.handler.url;
      && y.store == x.store && y.lock.previous == x.lock.previous
      && (y.lock.blobs == x.lock.blobs
          || (u in x.lock.previous && y.lock.blobs == x.lock.blobs[u := x.lock.previous[u]]))
  {
  }

  /** The recorded entry names the digest under which the handler committed. */
  lemma RecordCovers(c: Config, x: Local, closeOk: bool)
    requires HandlerStored(c, x.store, x.handler) && LocalCovered(x) && x.handler.Committed?
    ensures LocalCovered(React(c, x, Record(closeOk)))
  {
    var Committed(u, reply, info) := x.handler;
    Hex.DecodeEncode(c.hash(reply.body));
    RecordMoves(c, x, closeOk);
    CoversUpdate(x.store, x.lock.blobs, u, info);
  }

  lemma RecordMoves(c: Config, x: Local, closeOk: bool)
    requires x.handler.Committed?
    ensures
      var y := React(c, x, Record(closeOk));
      && y.store == x.store && y.lock.previous == x.lock.previous
      && (y.lock.blobs == x.lock.blobs || y.lock.blobs == x.lock.blobs[x.handler.url := x.handler.info])
  {
  }

  lemma CoversUpdate(store: Store, m: LockSpec.Manifest, u: Url, info: LockSpec.BlobInfo)
    requires Covers(store, m) && Stored(store, info.sha256)
    ensures Covers(store, m[u := info])
  {
  }

  lemma OtherActsKeepLock(c: Config, x: Local, a: Act)
    requires !(x.handler.Arrived? && a.Lookup?) && !(x.handler.Committed? && a.Record?)
    ensures React(c, x, a).lock == x.lock
  {
  }

  lemma ReactCovers(c: Config, x: Local, a: Act)
    requires WellFormed(c.hash, x.store) && HandlerStored(c, x.store, x.handler) && LocalCovered(x)
    ensures LocalCovered(React(c, x, a))
  {
    if x.handler.Arrived? && a.Lookup? {
      LookupCovers(c, x);
    } else if x.handler.Committed? && a.Record? {
      RecordCovers(c, x, a.closeOk);
    } else {
      ReactStores(c, x, a);
      OtherActsKeepLock(c, x, a);
      CoversKept(x.store, React(c, x, a).store, x.lock.blobs);
      CoversKept(x.store, React(c, x, a).store, x.lock.previous);
    }
  }

  lemma ApplyCovers(c: Config, s: Session, step: Step)
    requires Contents(c, s) && Covered(s)
    ensures Covered(Apply(c, s, step))
  {
    ApplyContents(c, s, step);
    if step.Do? && step.id in s.handlers {
      ReactCovers(c, LocalOf(s, step.id), step.act);
    } else {
      CoversKept(s.store, Apply(c, s, step).store, s.lock.blobs);
      CoversKept(s.store, Apply(c, s, step).store, s.lock.previous);
    }
  }

  /** Commit before record: if the store covers the manifest and every blob hashes to its key, then so it is
      in every state of every run, whatever fails. */
  lemma {:induction false} RunCovers(c: Config, s: Session, steps: seq<Step>)
    requires Contents(c, s) && Covered(s)
    ensures var t := Run(c, s, steps); Contents(c, t) && Covered(t) && KeepsBlobs(s.store, t.store)
    decreases |steps|
  {
    if steps != [] {
      ApplyContents(c, s, steps[0]);
      ApplyCovers(c, s, steps[0]);
      RunCovers(c, Apply(c, s, steps[0]), steps[1..]);
    }
  }

  /** From a build's start. A forced refresh forgets the old entries, so nothing needs to cover them. */
  lemma BuildCovers(c: Config, loaded: LockSpec.State, store: Store, disk: Option<string>, forget: bool, steps: seq<Step>)
    requires IsBuild(c) && WellFormed(c.hash, store) && (forget || Covers(store, loaded.blobs))
    requires LockSpec.Load(c.codec, c.lock, disk) == Some(loaded)
    ensures
      var t := Run(c, StartBuild(c, loaded, store, disk, forget), steps);
      WellFormed(c.hash, t.store) && Covers(t.store, t.lock.blobs) && KeepsBlobs(store, t.store)
  {
    RunCovers(c, StartBuild(c, loaded, store, disk, forget), steps);
  }
}
