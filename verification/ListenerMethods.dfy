/** The request handler as it runs when it is alone: methods over the manifest file, a blob store and the
    response. Each one takes the manifest and the store to the state that the environment drives the transition
    system to, and succeeds exactly when that ends without an error. */
module ListenerMethods {
  import opened Basics
  import opened Listener
  import opened ListenerAlone
  import opened LockFile
  import LockSpec
  import Hex

  class BlobStore {
    const hash: HashFn
    const writable: bool
    var blobs: Store

    constructor (hash: HashFn, writable: bool, blobs: Store)
      ensures this.hash == hash && this.writable == writable && this.blobs == blobs
    {
      this.hash, this.writable, this.blobs := hash, writable, blobs;
    }
  }

  type Headers = map<string, seq<string>>

  /** status is 0 until the header is written; only the first status counts. */
  class ResponseWriter {
    var status: int
    var headers: Headers
    var body: Bytes

    method WriteHeader(status: int)
      modifies this`status
      ensures this.status == if old(this.status) == 0 then status else old(this.status)
    {
      if this.status == 0 {
        this.status := status;
      }
    }
  }

  /** The text of a 404 answer: "missing asset" and a line feed. */
  const MISSING_ASSET: Bytes := [109, 105, 115, 115, 105, 110, 103, 32, 97, 115, 115, 101, 116, 10]

  lemma MissingAssetText()
    ensures |MISSING_ASSET| == |"missing asset\n"|
    ensures forall i :: 0 <= i < |MISSING_ASSET| ==> MISSING_ASSET[i] as int == "missing asset\n"[i] as int
  {
  }

  method FilterHeadersLoop(desired: set<string>, actual: Header) returns (rv: map<string, string>)
    ensures rv == FilterHeaders(desired, actual)
    ensures forall k :: k in rv <==> k in actual && k in desired
    ensures forall k :: k in rv ==> rv[k] == actual[k].first
  {
    rv := map[];
    var rest := actual.Keys;
    while rest != {}
      invariant rest <= actual.Keys
      invariant rv == map k | k in actual && k !in rest && k in desired :: actual[k].first
      decreases rest
    {
      var k :| k in rest;
      if k in desired {
        rv := rv[k := actual[k].first];
      }
      rest := rest - {k};
    }
  }

  /** Every value of every header of the upstream reaches the client, in order and after what it has. */
  method AddHeaders(w: ResponseWriter, actual: Header)
    modifies w`headers
    ensures forall k :: k in actual ==>
      k in w.headers && w.headers[k] == (if k in old(w.headers) then old(w.headers)[k] else []) + [actual[k].first] + actual[k].rest
    ensures forall k :: k !in actual ==>
      (k in w.headers <==> k in old(w.headers)) && (k in w.headers ==> w.headers[k] == old(w.headers)[k])
  {
    ghost var before := w.headers;
    var rest := actual.Keys;
    while rest != {}
      invariant rest <= actual.Keys
      invariant forall k :: k in actual && k !in rest ==>
        k in w.headers && w.headers[k] == (if k in before then before[k] else []) + [actual[k].first] + actual[k].rest
      invariant forall k :: k !in actual || k in rest ==>
        (k in w.headers <==> k in before) && (k in w.headers ==> w.headers[k] == before[k])
      decreases rest
    {
      var k :| k in rest;
      var held := if k in w.headers then w.headers[k] else [];
      w.headers := w.headers[k := held + [actual[k].first] + actual[k].rest];
      rest := rest - {k};
    }
  }

  /** The recorded headers replace what the client has for them. */
  method SetHeaders(w: ResponseWriter, recorded: map<string, string>)
    modifies w`headers
    ensures forall k :: k in recorded ==> k in w.headers && w.headers[k] == [recorded[k]]
    ensures forall k :: k !in recorded ==>
      (k in w.headers <==> k in old(w.headers)) && (k in w.headers ==> w.headers[k] == old(w.headers)[k])
  {
    var rest := recorded.Keys;
    while rest != {}
      invariant rest <= recorded.Keys
      invariant forall k :: k in recorded && k !in rest ==> k in w.headers && w.headers[k] == [recorded[k]]
      invariant forall k :: k !in recorded || k in rest ==>
        (k in w.headers <==> k in old(w.headers)) && (k in w.headers ==> w.headers[k] == old(w.headers)[k])
      decreases rest
    {
      var k :| k in rest;
      w.headers := w.headers[k := [recorded[k]]];
      rest := rest - {k};
    }
  }

  ghost function Here(assets: File, store: BlobStore, h: Handler): Local
    reads assets, assets.blobs, assets.previousBlobs, store
  {
    Local(assets.Abs(), store.blobs, h)
  }

  /** io.Copy to the client through the tee: each chunk goes to the blob writer first. It works exactly when no
      read meets a fault, and then client, blob file (data) and digest (absorbed) all got the whole body. */
  method StreamBody(reply: Reply, e: Setting, w: ResponseWriter?) returns (ok: bool, data: Bytes, absorbed: Bytes)
    requires e.client <==> w != null
    modifies w
    ensures ok <==> forall p :: p in Reads(e.env.size, |reply.body|, 0) ==>
      && !e.env.fault(p).UpstreamFault?
      && (p < |reply.body| ==> !e.env.fault(p).StoreFault? && (e.env.fault(p).ClientFault? ==> !e.client))
    ensures ok ==> data == absorbed == reply.body
    ensures w != null ==>
      && w.status == old(w.status) && w.headers == old(w.headers)
      && old(w.body) <= w.body <= old(w.body) + reply.body && (ok ==> w.body == old(w.body) + reply.body)
  {
    ClearIsUnharmed(e, |reply.body|);
    var pos := 0;
    data, absorbed := [], [];
    while pos < |reply.body|
      invariant 0 <= pos <= |reply.body|
      invariant data == absorbed == reply.body[..pos]
      invariant Clear(e, |reply.body|, 0) <==> Clear(e, |reply.body|, pos)
      invariant w != null ==> w.status == old(w.status) && w.headers == old(w.headers) && w.body == old(w.body) + reply.body[..pos]
    {
      var n := ReadAt(e.env.size, |reply.body|, pos);
      var fault := FaultAt(e, |reply.body|, pos);
      var chunk := reply.body[pos..pos + n];
      assert reply.body[..pos + n] == reply.body[..pos] + chunk;
      if fault.StoreFault? {
        data := data + chunk[..if fault.kept <= n then fault.kept else n];
        return false, data, absorbed;
      }
      if !fault.NoFault? {
        return false, data, absorbed;
      }
      data, absorbed := data + chunk, absorbed + chunk;
      if w != null {
        w.body := w.body + chunk;
      }
      pos := pos + n;
    }
    assert reply.body[..pos] == reply.body;
    ok := FaultAt(e, |reply.body|, pos).NoFault?;
  }

  method CommitAndRecord(c: Config, assets: File, store: BlobStore, u: Url, reply: Reply, data: Bytes, absorbed: Bytes, e: Setting)
    returns (ok: bool)
    requires assets.options == c.lock && store.hash == c.hash && data == absorbed == reply.body && EndOk(e, reply)
    modifies assets`dirty, assets.blobs, store
    ensures
      var y := Drive(c, e, At(old(Here(assets, store, Arrived(u))), u, reply, |reply.body|));
      Here(assets, store, y.handler) == y && ok == Succeeded(y.handler)
  {
    ghost var x := Here(assets, store, Arrived(u));
    CommitEnds(c, e, x, u, reply);
    var digest := store.hash(absorbed);
    if e.env.commit.CommitOk? || e.env.commit.visible {
      store.blobs := store.blobs[digest := data];
    }
    if e.env.commit.CommitFailed? {
      return false;
    }
    var headers := FilterHeadersLoop(c.headersToCache, reply.headers);
    var error := assets.AddBlob(u, LockSpec.BlobInfo(Hex.Encode(digest), headers));
    ok := error.None? && e.env.closeOk;
  }

  method SaveBody(c: Config, assets: File, store: BlobStore, u: Url, reply: Reply, e: Setting, w: ResponseWriter?)
    returns (ok: bool)
    requires assets.options == c.lock && store.hash == c.hash && (e.client <==> w != null)
    modifies assets`dirty, assets.blobs, store, w
    ensures
      var y := Drive(c, e, At(old(Here(assets, store, Arrived(u))), u, reply, 0));
      Here(assets, store, y.handler) == y && ok == Succeeded(y.handler)
    ensures w != null ==>
      && w.status == old(w.status) && w.headers == old(w.headers)
      && old(w.body) <= w.body <= old(w.body) + reply.body && (ok ==> w.body == old(w.body) + reply.body)
  {
    StreamEnds(c, e, Here(assets, store, Arrived(u)), u, reply, 0);
    ClearIsUnharmed(e, |reply.body|);
    var data, absorbed;
    ok, data, absorbed := StreamBody(reply, e, w);
    if ok {
      ok := CommitAndRecord(c, assets, store, u, reply, data, absorbed, e);
    }
  }

  /** An answer that is not saved goes to the client, if there is one. */
  method PassOn(reply: Reply, env: Env, w: ResponseWriter?) returns (ok: bool)
    modifies w
    ensures ok <==> w == null || env.forwardOk
    ensures w != null ==>
      && w.status == old(w.status) && w.headers == old(w.headers)
      && w.body == if ok then old(w.body) + reply.body else old(w.body)
  {
    if w == null {
      return true;
    }
    if env.forwardOk {
      w.body := w.body + reply.body;
    }
    return env.forwardOk;
  }

  /** fetchAndSaveBlob; w is null when verify fetches. */
  method FetchAndSaveBlob(c: Config, assets: File, store: BlobStore, u: Url, env: Env, w: ResponseWriter?)
    returns (ok: bool)
    requires assets.options == c.lock && store.hash == c.hash
    modifies assets`dirty, assets.blobs, store, w
    ensures
      var y := Drive(c, Setting(env, store.writable, w != null), old(Here(assets, store, Requesting(u))));
      Here(assets, store, y.handler) == y && ok == Succeeded(y.handler)
    ensures w != null && env.answer.None? ==>
      w.status == old(w.status) && w.headers == old(w.headers) && w.body == old(w.body)
    ensures w != null && env.answer.Some? ==>
      && w.status == (if old(w.status) == 0 then env.answer.value.status else old(w.status))
      && (forall k :: k in env.answer.value.headers ==>
            && k in w.headers
            && w.headers[k] == (if k in old(w.headers) then old(w.headers)[k] else [])
                 + [env.answer.value.headers[k].first] + env.answer.value.headers[k].rest)
      && (forall k :: k !in env.answer.value.headers ==>
            (k in w.headers <==> k in old(w.headers)) && (k in w.headers ==> w.headers[k] == old(w.headers)[k]))
      && old(w.body) <= w.body <= old(w.body) + env.answer.value.body
      && (ok ==> w.body == old(w.body) + env.answer.value.body)
  {
    var e := Setting(env, store.writable, w != null);
    AnswerNext(c, e, Here(assets, store, Requesting(u)));
    if env.answer.None? {
      return false;
    }
    var reply := env.answer.value;
    if w != null {
      AddHeaders(w, reply.headers);
      w.WriteHeader(reply.status);
    }
    var skip := assets.SkipSave(u);
    if skip || reply.status != OK {
      var forwarded := PassOn(reply, env, w);
      return forwarded && env.closeOk;
    }
    if !env.putOk || !store.writable {
      return false;
    }
    ok := SaveBody(c, assets, store, u, reply, e, w);
  }

  method ServeFoundBlob(c: Config, ghost lock: LockSpec.State, u: Url, info: LockSpec.BlobInfo, store: BlobStore, e: Setting, w: ResponseWriter)
    returns (ok: bool)
    modifies w
    ensures
      var y := Drive(c, e, Local(lock, store.blobs, Serving(u, info)));
      && ok == Succeeded(y.handler)
      && (ok ==> w.status == (if old(w.status) == 0 then 200 else old(w.status)))
      && (ok ==> y.handler.outcome.Served? && w.body == old(w.body) + y.handler.outcome.content)
    ensures ok ==>
      && (forall k :: k in info.headers ==> k in w.headers && w.headers[k] == [info.headers[k]])
      && (forall k :: k !in info.headers ==>
            (k in w.headers <==> k in old(w.headers)) && (k in w.headers ==> w.headers[k] == old(w.headers)[k]))
  {
    ServeEnds(c, e, Local(lock, store.blobs, Serving(u, info)));
    var k := Hex.Decode(info.sha256);
    if k.None? || !e.env.openOk || k.value !in store.blobs {
      return false;
    }
    SetHeaders(w, info.headers);
    ok := e.env.copyOk;
    if ok {
      w.WriteHeader(OK);   // the first write, or the end of the answer, implies it
      w.body := w.body + store.blobs[k.value];
    }
  }

  /** handleMainServerRequest: manifest and store end as driven from the request's arrival, an error is
      returned exactly when that ends in one, and the client got the content and headers it ended with. */
  method HandleMainServerRequest(c: Config, assets: File, store: BlobStore, u: Url, env: Env, w: ResponseWriter)
    returns (ok: bool)
    requires assets.options == c.lock && store.hash == c.hash
    modifies assets`dirty, assets.blobs, store, w
    ensures
      var y := Drive(c, Setting(env, store.writable, true), old(Here(assets, store, Arrived(u))));
      && Here(assets, store, y.handler) == y && ok == Succeeded(y.handler)
      && (ok ==> match y.handler.outcome
           case DummyOk =>
             w.status == (if old(w.status) == 0 then 200 else old(w.status)) && w.body == old(w.body) && w.headers == old(w.headers)
           case NotFound => w.status == (if old(w.status) == 0 then 404 else old(w.status)) && w.body == old(w.body) + MISSING_ASSET
           case Served(info, content) =>
             && w.status == (if old(w.status) == 0 then 200 else old(w.status))
             && w.body == old(w.body) + content
             && (forall k :: k in info.headers ==> k in w.headers && w.headers[k] == [info.headers[k]])
             && (forall k :: k !in info.headers ==>
                   (k in w.headers <==> k in old(w.headers)) && (k in w.headers ==> w.headers[k] == old(w.headers)[k]))
           case Recorded(reply, _, _) =>
             && w.status == (if old(w.status) == 0 then 200 else old(w.status))
             && w.body == old(w.body) + reply.body
             && (forall k :: k in reply.headers ==>
                   && k in w.headers
                   && w.headers[k] == (if k in old(w.headers) then old(w.headers)[k] else [])
                        + [reply.headers[k].first] + reply.headers[k].rest)
             && (forall k :: k !in reply.headers ==>
                   (k in w.headers <==> k in old(w.headers)) && (k in w.headers ==> w.headers[k] == old(w.headers)[k]))
           case Forwarded(reply) =>
             && w.status == (if old(w.status) == 0 then reply.status else old(w.status))
             && w.body == old(w.body) + reply.body
             && (forall k :: k in reply.headers ==>
                   && k in w.headers
                   && w.headers[k] == (if k in old(w.headers) then old(w.headers)[k] else [])
                        + [reply.headers[k].first] + reply.headers[k].rest)
             && (forall k :: k !in reply.headers ==>
                   (k in w.headers <==> k in old(w.headers)) && (k in w.headers ==> w.headers[k] == old(w.headers)[k]))
           case Failed => false)
  {
    var e := Setting(env, store.writable, true);
    ghost var x := Here(assets, store, Arrived(u));
    ghost var y := React(c, x, Lookup);
    assert Drive(c, e, x) == Drive(c, e, y);
    if c.dummyOK(u) {
      w.WriteHeader(OK);
      return true;
    }
    var r := assets.GetBlob(u);
    match r
    case Broken(_) =>
      return false;
    case Found(info) =>
      ServeEnds(c, e, y);
      ok := ServeFoundBlob(c, assets.Abs(), u, info, store, e, w);
    case Missing =>
      if c.fetchIfMissing {
        FetchEnds(c, e, y);
        ok := FetchAndSaveBlob(c, assets, store, u, env, w);
      } else if c.failIfMissing {
        w.WriteHeader(404);
        w.body := w.body + MISSING_ASSET;
        ok := true;
      } else {
        ok := false;
      }
  }
}
