/** The proxy's request handlers as a transition system. Every label of a run names one handler and one
    thing that happens to it, so a sequence of labels is one interleaving together with the choices of the
    upstream, the client and the disk. A label that does not fit the handler's phase changes nothing: every
    sequence of labels is a run. */
module Listener {
  import opened Basics
  import LockSpec
  import Hex

  type Url = string

  /** A received header has at least one value. */
  datatype Values = Values(first: string, rest: seq<string>)

  type Header = map<string, Values>

  datatype Reply = Reply(status: int, headers: Header, body: Bytes)

  const OK := 200

  datatype Config = Config(
    hash: HashFn,
    codec: LockSpec.Codec,
    lock: LockSpec.Options,
    dummyOK: Url -> bool,
    fetchIfMissing: bool,
    failIfMissing: bool,
    headersToCache: set<string>)

  datatype Outcome =
    | DummyOk                                             // offline only: 200 without content
    | Served(info: LockSpec.BlobInfo, content: Bytes)     // answered from the store
    | NotFound                                            // 404
    | Forwarded(forwarded: Reply)                         // passed on, not saved
    | Recorded(reply: Reply, recorded: LockSpec.BlobInfo, closed: bool)
    | Failed                                              // the handler returned an error

  datatype Handler =
    | Arrived(url: Url)
    | Serving(url: Url, info: LockSpec.BlobInfo)
    | Copying(url: Url, info: LockSpec.BlobInfo, content: Bytes)
    | Requesting(url: Url)
    | Forwarding(url: Url, reply: Reply)
    | Streaming(url: Url, reply: Reply, pos: nat, data: Bytes, absorbed: Bytes)
    | Committed(url: Url, reply: Reply, info: LockSpec.BlobInfo)
    | Done(url: Url, outcome: Outcome)

  /** What can go wrong with one chunk: the blob writer keeps only some bytes and hashes none of them, the
      client goes away after the writer took the chunk, or the upstream body breaks off, if only at its end. */
  datatype Fault = NoFault | StoreFault(kept: nat) | ClientFault | UpstreamFault

  /** A failed commit may or may not have made the blob visible. */
  datatype CommitResult = CommitOk | CommitFailed(visible: bool)

  datatype Act =
    | Lookup
    | Open(openOk: bool)
    | Copy(copyOk: bool)
    | Upstream(answer: Option<Reply>, putOk: bool)
    | Forward(forwardOk: bool)
    | Chunk(n: nat, fault: Fault)
    | Commit(result: CommitResult)
    | Record(closeOk: bool)

  function FilterHeaders(desired: set<string>, actual: Header): map<string, string> {
    map k | k in actual && k in desired :: actual[k].first
  }

  function InfoFor(c: Config, digest: Bytes, headers: Header): LockSpec.BlobInfo {
    LockSpec.BlobInfo(Hex.Encode(digest), FilterHeaders(c.headersToCache, headers))
  }

  datatype Local = Local(lock: LockSpec.State, store: Store, handler: Handler)

  function Fail(x: Local): Local {
    x.(handler := Done(x.handler.url, Failed))
  }

  /** One step of one handler: handleMainServerRequest, serveFoundBlob and fetchAndSaveBlob. */
  function React(c: Config, x: Local, a: Act): Local {
    match (x.handler, a)
    case (Arrived(u), Lookup) =>
      if c.dummyOK(u) then x.(handler := Done(u, DummyOk))
      else
        var (l, r) := LockSpec.GetBlob(c.lock, x.lock, u);
        var y := x.(lock := l);
        (match r
         case Found(info) => y.(handler := Serving(u, info))
         case Broken(_) => Fail(y)
         case Missing =>
           if c.fetchIfMissing then y.(handler := Requesting(u))
           else if c.failIfMissing then y.(handler := Done(u, NotFound))
           else Fail(y))
    case (Serving(u, info), Open(ok)) =>
      (match Hex.Decode(info.sha256)
       case None => Fail(x)
       case Some(d) => if ok && d in x.store then x.(handler := Copying(u, info, x.store[d])) else Fail(x))
    case (Copying(u, info, content), Copy(ok)) =>
      if ok then x.(handler := Done(u, Served(info, content))) else Fail(x)
    case (Requesting(u), Upstream(answer, putOk)) =>
      (match answer
       case None => Fail(x)
       case Some(reply) =>
         if c.lock.noCache(u) || reply.status != OK then x.(handler := Forwarding(u, reply))
         else if putOk then x.(handler := Streaming(u, reply, 0, [], []))
         else Fail(x))
    case (Forwarding(u, reply), Forward(ok)) =>
      if ok then x.(handler := Done(u, Forwarded(reply))) else Fail(x)
    case (Streaming(u, reply, pos, data, absorbed), Chunk(n, fault)) =>
      if pos + n > |reply.body| || (n == 0 && !fault.UpstreamFault?) then x
      else if fault.NoFault? then
        var chunk := reply.body[pos..pos + n];
        x.(handler := Streaming(u, reply, pos + n, data + chunk, absorbed + chunk))
      else Fail(x)   // the deferred Cleanup drops the writer, whatever it held
    case (Streaming(u, reply, pos, data, absorbed), Commit(result)) =>
      if pos != |reply.body| then x
      else
        var d := c.hash(absorbed);
        var y := x.(store := x.store[d := data]);
        (match result
         case CommitOk => y.(handler := Committed(u, reply, InfoFor(c, d, reply.headers)))
         case CommitFailed(visible) => Fail(if visible then y else x))
    case (Committed(u, reply, info), Record(closeOk)) =>
      var (l, e) := LockSpec.AddBlob(c.lock, x.lock, u, info);
      var y := x.(lock := l);
      if e.Some? then Fail(y) else y.(handler := Done(u, Recorded(reply, info, closeOk)))
    case _ => x
  }

  // The whole session.

  datatype Session = Session(
    lock: LockSpec.State,
    store: Store,
    handlers: map<nat, Handler>,
    disk: Option<string>,
    closed: bool)

  /** Shared is another process storing a blob in the same store. Close is the deferred Close of the
      manifest; handlers still in flight go on after it. */
  datatype Step =
    | Arrive(id: nat, url: Url)
    | Do(id: nat, act: Act)
    | Shared(content: Bytes)
    | Close(w: LockSpec.WriteOutcome)

  function LocalOf(s: Session, id: nat): Local
    requires id in s.handlers
  {
    Local(s.lock, s.store, s.handlers[id])
  }

  function Apply(c: Config, s: Session, step: Step): Session {
    match step
    case Arrive(id, url) =>
      if id in s.handlers then s else s.(handlers := s.handlers[id := Arrived(url)])
    case Do(id, act) =>
      if id !in s.handlers then s
      else
        var y := React(c, LocalOf(s, id), act);
        s.(lock := y.lock, store := y.store, handlers := s.handlers[id := y.handler])
    case Shared(content) => s.(store := s.store[c.hash(content) := content])
    case Close(w) =>
      if s.closed then s
      else
        var (l, d, e) := LockSpec.Close(c.codec, c.lock, s.lock, s.disk, w);
        s.(lock := l, disk := d, closed := true)
  }

  function Run(c: Config, s: Session, steps: seq<Step>): Session
    decreases |steps|
  {
    if steps == [] then s else Run(c, Apply(c, s, steps[0]), steps[1..])
  }

  /** A build opens the manifest for writing without overwriting, resets it and starts with no handler. */
  ghost predicate IsBuild(c: Config) {
    c.lock.writable && !c.lock.allowOverwrite && c.fetchIfMissing && forall u :: !c.dummyOK(u)
  }

  /** An offline run opens it read-only with an empty no-cache list. */
  ghost predicate IsOffline(c: Config) {
    !c.lock.writable && !c.lock.allowOverwrite && !c.fetchIfMissing && c.failIfMissing
    && forall u :: !c.lock.noCache(u)
  }

  function StartBuild(c: Config, loaded: LockSpec.State, store: Store, disk: Option<string>, forget: bool): Session {
    Session(LockSpec.Reset(c.lock, loaded, forget).0, store, map[], disk, false)
  }

  function StartOffline(loaded: LockSpec.State, store: Store, disk: Option<string>): Session {
    Session(loaded, store, map[], disk, false)
  }

  // The store.

  ghost predicate Stored(store: Store, sha256: string) {
    var d := Hex.Decode(sha256);
    d.Some? && d.value in store
  }

  ghost predicate Covers(store: Store, m: LockSpec.Manifest) {
    forall k :: k in m ==> Stored(store, m[k].sha256)
  }
}
