/** One request without interference. The environment is fixed before it starts, so how the handler ends is a
    function of its inputs: Drive performs the act that the environment makes of each phase, until the handler
    is done. Then the closed forms: exactly when it succeeds, and what it leaves behind. */
module ListenerAlone {
  import opened Basics
  import opened Listener
  import LockSpec
  import Hex

  /** The choices of upstream, store and client during one request. The chunk read at a position has the
      given size, cut to what is left, and may fail; at the end only the upstream can. closeOk is about the
      upstream's body and, when the answer was saved, the writer's cleanup. */
  datatype Env = Env(
    answer: Option<Reply>,
    putOk: bool,
    size: nat -> nat,
    fault: nat -> Fault,
    commit: CommitResult,
    closeOk: bool,
    forwardOk: bool,
    openOk: bool,
    copyOk: bool)

  /** The environment, whether the store accepts new blobs, and whether there is a client: verify has none. */
  datatype Setting = Setting(env: Env, writable: bool, client: bool)

  function FaultAt(e: Setting, total: nat, pos: nat): Fault {
    var fault := e.env.fault(pos);
    if fault.UpstreamFault? || (pos < total && (fault.StoreFault? || e.client)) then fault else NoFault
  }

  function Passes(e: Setting, total: nat): nat -> bool {
    (pos: nat) => FaultAt(e, total, pos).NoFault?
  }

  predicate InBody(h: Handler) {
    h.Streaming? ==> h.pos <= |h.reply.body|
  }

  function NextAct(e: Setting, h: Handler): Act
    requires !h.Done? && InBody(h)
  {
    match h
    case Arrived(_) => Lookup
    case Serving(_, _) => Open(e.env.openOk)
    case Copying(_, _, _) => Copy(e.env.copyOk)
    case Requesting(_) => Upstream(e.env.answer, e.env.putOk && e.writable)
    case Forwarding(_, _) => Forward((e.client ==> e.env.forwardOk) && e.env.closeOk)
    case Streaming(_, reply, pos, _, _) =>
      var fault := FaultAt(e, |reply.body|, pos);
      if pos < |reply.body| then Chunk(ReadAt(e.env.size, |reply.body|, pos), fault)
      else if fault.UpstreamFault? then Chunk(0, fault)
      else Commit(e.env.commit)
    case Committed(_, _, _) => Record(e.env.closeOk)
  }

  function Phase(h: Handler): nat {
    match h
    case Arrived(_) => 4
    case Requesting(_) => 3
    case Serving(_, _) => 2
    case Streaming(_, _, _, _, _) => 2
    case Copying(_, _, _) => 1
    case Forwarding(_, _) => 1
    case Committed(_, _, _) => 1
    case Done(_, _) => 0
  }

  function Unread(h: Handler): nat
    requires InBody(h)
  {
    if h.Streaming? then |h.reply.body| - h.pos else 0
  }

  /** Every act of the environment brings the handler closer to its end. */
  function Next(c: Config, e: Setting, x: Local): (y: Local)
    requires InBody(x.handler) && !x.handler.Done?
    ensures InBody(y.handler) && y.handler.url == x.handler.url
    ensures Phase(y.handler) < Phase(x.handler)
         || (Phase(y.handler) == Phase(x.handler) && Unread(y.handler) < Unread(x.handler))
  {
    React(c, x, NextAct(e, x.handler))
  }

  function Drive(c: Config, e: Setting, x: Local): (r: Local)
    requires InBody(x.handler)
    ensures r.handler.Done? && r.handler.url == x.handler.url
    decreases Phase(x.handler), Unread(x.handler)
  {
    if x.handler.Done? then x else Drive(c, e, Next(c, e, x))
  }

  // Drive is a path of the transition system.

  function RunActs(c: Config, x: Local, acts: seq<Act>): Local
    decreases |acts|
  {
    if acts == [] then x else RunActs(c, React(c, x, acts[0]), acts[1..])
  }

  function Acts(c: Config, e: Setting, x: Local): seq<Act>
    requires InBody(x.handler)
    decreases Phase(x.handler), Unread(x.handler)
  {
    if x.handler.Done? then []
    else [NextAct(e, x.handler)] + Acts(c, e, Next(c, e, x))
  }

  lemma {:induction false} DriveIsRun(c: Config, e: Setting, x: Local)
    requires InBody(x.handler)
    ensures RunActs(c, x, Acts(c, e, x)) == Drive(c, e, x)
    decreases Phase(x.handler), Unread(x.handler)
  {
    if !x.handler.Done? {
      var y := Next(c, e, x);
      assert Acts(c, e, x)[1..] == Acts(c, e, y);
      DriveIsRun(c, e, y);
    }
  }

  /** The acts of one handler, done one after the other in a session, change only the shared state and that
      handler. */
  lemma {:induction false} RunInSession(c: Config, s: Session, id: nat, acts: seq<Act>)
    requires id in s.handlers
    ensures
      var x := RunActs(c, LocalOf(s, id), acts);
      Run(c, s, seq(|acts|, i requires 0 <= i < |acts| => Do(id, acts[i])))
        == s.(lock := x.lock, store := x.store, handlers := s.handlers[id := x.handler])
    decreases |acts|
  {
    var steps := seq(|acts|, i requires 0 <= i < |acts| => Do(id, acts[i]));
    if acts != [] {
      assert steps[1..] == seq(|acts[1..]|, i requires 0 <= i < |acts[1..]| => Do(id, acts[1..][i]));
      var t := Apply(c, s, steps[0]);
      RunInSession(c, t, id, acts[1..]);
      var x := RunActs(c, LocalOf(s, id), acts);
      assert t.handlers[id := x.handler] == s.handlers[id := x.handler];
    } else {
      assert s.handlers[id := s.handlers[id]] == s.handlers;
    }
  }

  /** So a handler that is left alone in a session takes the session to the driven state. */
  lemma AloneInSession(c: Config, s: Session, id: nat, e: Setting) returns (steps: seq<Step>)
    requires id in s.handlers && InBody(s.handlers[id])
    ensures forall i :: 0 <= i < |steps| ==> steps[i].Do? && steps[i].id == id
    ensures
      var x := Drive(c, e, LocalOf(s, id));
      Run(c, s, steps) == s.(lock := x.lock, store := x.store, handlers := s.handlers[id := x.handler])
  {
    var acts := Acts(c, e, LocalOf(s, id));
    DriveIsRun(c, e, LocalOf(s, id));
    RunInSession(c, s, id, acts);
    steps := seq(|acts|, i requires 0 <= i < |acts| => Do(id, acts[i]));
  }

  /** So does one that arrives there first. */
  lemma RequestInSession(c: Config, s: Session, id: nat, u: Url, e: Setting) returns (steps: seq<Step>)
    requires id !in s.handlers
    ensures
      var x := Drive(c, e, Local(s.lock, s.store, Arrived(u)));
      Run(c, s, steps) == s.(lock := x.lock, store := x.store, handlers := s.handlers[id := x.handler])
  {
    var t := Apply(c, s, Arrive(id, u));
    assert LocalOf(t, id) == Local(s.lock, s.store, Arrived(u));
    var rest := AloneInSession(c, t, id, e);
    steps := [Arrive(id, u)] + rest;
    assert steps[1..] == rest;
    var x := Drive(c, e, LocalOf(t, id));
    assert t.handlers[id := x.handler] == s.handlers[id := x.handler];
  }

  // Closed forms.

  /** A 200 answer for a URL that is not on the no-cache list is saved; any other is only passed on. */
  predicate Savable(c: Config, u: Url, env: Env) {
    env.answer.Some? && !c.lock.noCache(u) && env.answer.value.status == OK
  }

  function InfoOf(c: Config, reply: Reply): LockSpec.BlobInfo {
    InfoFor(c, c.hash(reply.body), reply.headers)
  }

  /** A copy of a body of this length that goes on at pos meets no fault. */
  predicate Clear(e: Setting, total: nat, pos: nat)
    requires pos <= total
  {
    AllRead(e.env.size, Passes(e, total), total, pos)
  }

  /** The read that meets the end of the body works. */
  predicate EndOk(e: Setting, reply: Reply) {
    FaultAt(e, |reply.body|, |reply.body|).NoFault?
  }

  /** The handler has streamed the body up to pos, and file and digest hold just that. */
  function At(x: Local, u: Url, reply: Reply, pos: nat): Local
    requires pos <= |reply.body|
  {
    x.(handler := Streaming(u, reply, pos, reply.body[..pos], reply.body[..pos]))
  }

  /** A writer is committed exactly when the whole body went through without a fault, and then file and digest
      hold the body. */
  lemma {:induction false} StreamEnds(c: Config, e: Setting, x: Local, u: Url, reply: Reply, pos: nat)
    requires pos <= |reply.body|
    ensures Drive(c, e, At(x, u, reply, pos)) ==
      if Clear(e, |reply.body|, pos) then Drive(c, e, At(x, u, reply, |reply.body|)) else x.(handler := Done(u, Failed))
    ensures Clear(e, |reply.body|, pos) ==> EndOk(e, reply)
    decreases |reply.body| - pos
  {
    if pos == |reply.body| {
      EndNext(c, e, x, u, reply);
    } else {
      ChunkNext(c, e, x, u, reply, pos);
      if FaultAt(e, |reply.body|, pos).NoFault? {
        StreamEnds(c, e, x, u, reply, pos + ReadAt(e.env.size, |reply.body|, pos));
      }
    }
  }

  lemma EndNext(c: Config, e: Setting, x: Local, u: Url, reply: Reply)
    ensures !EndOk(e, reply) ==> Drive(c, e, At(x, u, reply, |reply.body|)) == x.(handler := Done(u, Failed))
  {
    var y := At(x, u, reply, |reply.body|);
    if !EndOk(e, reply) {
      assert Drive(c, e, y) == Next(c, e, y);
    }
  }

  lemma ChunkNext(c: Config, e: Setting, x: Local, u: Url, reply: Reply, pos: nat)
    requires pos < |reply.body|
    ensures Drive(c, e, At(x, u, reply, pos)) ==
      if FaultAt(e, |reply.body|, pos).NoFault?
      then Drive(c, e, At(x, u, reply, pos + ReadAt(e.env.size, |reply.body|, pos)))
      else x.(handler := Done(u, Failed))
  {
    var end := pos + ReadAt(e.env.size, |reply.body|, pos);
    assert reply.body[..end] == reply.body[..pos] + reply.body[pos..end];
    var y := At(x, u, reply, pos);
    assert Drive(c, e, y) == Drive(c, e, Next(c, e, y));
  }

  /** In terms of what the environment does at the positions that the copy visits: a failed write of the blob or
      a failed read before the end, a client lost before the end if there is one, and a failed read at the end
      make the handler fail with manifest and store as they were; any other copy reaches the commit, with the
      whole body in file and digest. */
  lemma StreamDecides(c: Config, e: Setting, x: Local, u: Url, reply: Reply)
    ensures
      var total := |reply.body|;
      Drive(c, e, x.(handler := Streaming(u, reply, 0, [], []))) ==
        if exists p :: p in Reads(e.env.size, total, 0)
             && (e.env.fault(p).UpstreamFault?
                 || (p < total && e.env.fault(p).StoreFault?)
                 || (p < total && e.env.fault(p).ClientFault? && e.client))
        then x.(handler := Done(u, Failed))
        else Drive(c, e, x.(handler := Streaming(u, reply, total, reply.body, reply.body)))
  {
    var total := |reply.body|;
    StreamEnds(c, e, x, u, reply, 0);
    ClearIsUnharmed(e, total);
    assert reply.body[..0] == [] && reply.body[..total] == reply.body;
  }

  /** No position at which a copy of a body of this length reads meets a fault. */
  ghost predicate Unharmed(e: Setting, total: nat) {
    forall p :: p in Reads(e.env.size, total, 0) ==>
      && !e.env.fault(p).UpstreamFault?
      && (p < total ==> !e.env.fault(p).StoreFault? && (e.env.fault(p).ClientFault? ==> !e.client))
  }

  lemma ClearIsUnharmed(e: Setting, total: nat)
    ensures Clear(e, total, 0) <==> Unharmed(e, total)
  {
    AllReadAt(e.env.size, Passes(e, total), total, 0);
    forall p | p in Reads(e.env.size, total, 0)
      ensures Passes(e, total)(p) <==>
        && !e.env.fault(p).UpstreamFault?
        && (p < total ==> !e.env.fault(p).StoreFault? && (e.env.fault(p).ClientFault? ==> !e.client))
    {
      ReadsBelow(e.env.size, total, 0, p);
    }
  }

  /** The writer was opened and took the whole body. */
  ghost predicate Taken(e: Setting) {
    e.env.answer.Some? && e.env.putOk && e.writable && Unharmed(e, |e.env.answer.value.body|)
  }

  /** How a fetch ends. Unless the answer is a 200 for a URL that is cached, it leaves no trace in manifest and
      store, and is passed on exactly when it reached the client, if there is one, and its body could be closed.
      Else the blob is stored when the body was taken and the commit worked (or failed after the fact), and
      recorded when nobody recorded another entry; the handler says whether closing worked. */
  lemma FetchEnds(c: Config, e: Setting, x: Local)
    requires x.handler.Requesting?
    ensures
      var y := Drive(c, e, x);
      var u := x.handler.url;
      if e.env.answer.None? then y == x.(handler := Done(u, Failed))
      else
        var reply := e.env.answer.value;
        if c.lock.noCache(u) || reply.status != 200 then
          y == x.(handler := Done(u, if (e.client ==> e.env.forwardOk) && e.env.closeOk then Forwarded(reply) else Failed))
        else
          var info := LockSpec.BlobInfo(Hex.Encode(c.hash(reply.body)), FilterHeaders(c.headersToCache, reply.headers));
          var commit := e.env.commit;
          var (lock, error) := LockSpec.AddBlob(c.lock, x.lock, u, info);
          && y.store == (if Taken(e) && (commit.CommitOk? || commit.visible) then x.store[c.hash(reply.body) := reply.body] else x.store)
          && y.lock == (if Taken(e) && commit.CommitOk? then lock else x.lock)
          && y.handler.outcome ==
               if Taken(e) && commit.CommitOk? && error.None? then Recorded(reply, info, e.env.closeOk) else Failed
  {
    var u := x.handler.url;
    AnswerNext(c, e, x);
    if Savable(c, u, e.env) && e.env.putOk && e.writable {
      var reply := e.env.answer.value;
      ClearIsUnharmed(e, |reply.body|);
      StreamEnds(c, e, x, u, reply, 0);
      if Taken(e) {
        CommitEnds(c, e, x, u, reply);
      }
    }
  }

  /** What the answer makes of a request. */
  lemma AnswerNext(c: Config, e: Setting, x: Local)
    requires x.handler.Requesting?
    ensures
      var u := x.handler.url;
      Drive(c, e, x) ==
        if Savable(c, u, e.env) then
          if e.env.putOk && e.writable then Drive(c, e, At(x, u, e.env.answer.value, 0))
          else Fail(x)
        else x.(handler := Done(u,
          if e.env.answer.Some? && (e.client ==> e.env.forwardOk) && e.env.closeOk
          then Forwarded(e.env.answer.value) else Failed))
  {
    var y := Next(c, e, x);
    assert Drive(c, e, x) == Drive(c, e, y);
    if y.handler.Forwarding? {
      assert Drive(c, e, y) == Next(c, e, y);
    }
  }

  lemma CommitEnds(c: Config, e: Setting, x: Local, u: Url, reply: Reply)
    requires EndOk(e, reply)
    ensures
      var commit := e.env.commit;
      var (lock, error) := LockSpec.AddBlob(c.lock, x.lock, u, InfoOf(c, reply));
      Drive(c, e, At(x, u, reply, |reply.body|)) == Local(
        if commit.CommitOk? then lock else x.lock,
        if commit.CommitOk? || commit.visible then x.store[c.hash(reply.body) := reply.body] else x.store,
        Done(u, if commit.CommitOk? && error.None? then Recorded(reply, InfoOf(c, reply), e.env.closeOk) else Failed))
  {
    assert reply.body[..|reply.body|] == reply.body;
    var y := At(x, u, reply, |reply.body|);
    var z := React(c, y, Commit(e.env.commit));
    assert Drive(c, e, y) == Drive(c, e, z);
    if e.env.commit.CommitOk? {
      assert Drive(c, e, z) == React(c, z, Record(e.env.closeOk));
    }
  }

  ghost predicate Readable(e: Setting, store: Store, info: LockSpec.BlobInfo) {
    var d := Hex.Decode(info.sha256);
    d.Some? && d.value in store && e.env.openOk && e.env.copyOk
  }

  lemma ServeEnds(c: Config, e: Setting, x: Local)
    requires x.handler.Serving?
    ensures
      var Serving(u, info) := x.handler;
      var d := Hex.Decode(info.sha256);
      Drive(c, e, x) == x.(handler := Done(u,
        if d.Some? && d.value in x.store && e.env.openOk && e.env.copyOk then Served(info, x.store[d.value]) else Failed))
  {
    var y := Next(c, e, x);
    assert Drive(c, e, x) == Drive(c, e, y);
    if y.handler.Copying? {
      assert Drive(c, e, y) == Next(c, e, y);
    }
  }

  /** The handler returned no error. */
  predicate Succeeded(h: Handler) {
    h.Done? && !h.outcome.Failed? && (h.outcome.Recorded? ==> h.outcome.closed)
  }

  /** There was an answer whose body could be closed, and either it was not to be saved and reached the client,
      if there is one, or every step of saving it worked and the manifest had no other entry. */
  ghost predicate FetchWorks(c: Config, e: Setting, lock: LockSpec.State, u: Url) {
    && e.env.answer.Some? && e.env.closeOk
    && (!Savable(c, u, e.env) ==> (e.client ==> e.env.forwardOk))
    && (Savable(c, u, e.env) ==>
          && Taken(e) && e.env.commit.CommitOk?
          && LockSpec.AddBlob(c.lock, lock, u, InfoOf(c, e.env.answer.value)).1.None?)
  }

  /** A fetch returns no error exactly when there was an answer whose body could be closed and, if it is not a
      200 for a URL that is cached, it reached the client, if there is one; if it is, the store accepted it, no
      read or write of the body failed, the commit worked, and the manifest has the same entry or may be
      changed and written. */
  lemma FetchSucceeds(c: Config, e: Setting, x: Local)
    requires x.handler.Requesting?
    ensures
      var u := x.handler.url;
      && (Succeeded(Drive(c, e, x).handler) <==> FetchWorks(c, e, x.lock, u))
      && (FetchWorks(c, e, x.lock, u) <==>
            && e.env.answer.Some? && e.env.closeOk
            && var reply := e.env.answer.value;
               if c.lock.noCache(u) || reply.status != 200 then e.client ==> e.env.forwardOk
               else
                 var info := LockSpec.BlobInfo(Hex.Encode(c.hash(reply.body)), FilterHeaders(c.headersToCache, reply.headers));
                 && e.env.putOk && e.writable && e.env.commit.CommitOk?
                 && (forall p :: p in Reads(e.env.size, |reply.body|, 0) ==>
                       && !e.env.fault(p).UpstreamFault?
                       && (p < |reply.body| ==> !e.env.fault(p).StoreFault? && (e.env.fault(p).ClientFault? ==> !e.client)))
                 && ((u in x.lock.blobs && x.lock.blobs[u] == info)
                     || (c.lock.writable && (u in x.lock.blobs ==> c.lock.allowOverwrite))))
  {
    FetchEnds(c, e, x);
  }

  /** Nothing goes wrong but, possibly, the upstream's answer. */
  ghost predicate FaultFree(e: Setting) {
    && e.env.putOk && e.writable && e.env.commit.CommitOk? && e.env.closeOk && e.env.forwardOk
    && forall pos :: e.env.fault(pos).NoFault?
  }

  /** Without faults only a missing answer, or a different entry that may not be overwritten, stops a fetch. */
  lemma FetchWithoutFaults(c: Config, e: Setting, lock: LockSpec.State, u: Url)
    requires FaultFree(e) && c.lock.writable == c.lock.allowOverwrite && u in lock.blobs
    ensures FetchWorks(c, e, lock, u) <==>
      && e.env.answer.Some?
      && (Savable(c, u, e.env) ==> c.lock.allowOverwrite || lock.blobs[u] == InfoOf(c, e.env.answer.value))
  {
    if e.env.answer.Some? {
      var total := |e.env.answer.value.body|;
      NoFaultAllRead(e.env.size, Passes(e, total), total, 0);
    }
  }

  /** A request is answered without error exactly when it is a dummy, or its entry (current, or promoted from
      the previous run) is readable, or there is none and fetching works, or refusing it is what is wanted. */
  lemma RequestEnds(c: Config, e: Setting, x: Local)
    requires x.handler.Arrived?
    ensures
      var u := x.handler.url;
      var r := LockSpec.GetBlob(c.lock, x.lock, u).1;
      var y := Drive(c, e, x).handler;
      && (c.dummyOK(u) ==> y.outcome == DummyOk)
      && (!c.dummyOK(u) && r.Missing? && !c.fetchIfMissing ==> y.outcome == if c.failIfMissing then NotFound else Failed)
      && (Succeeded(y) <==>
            || c.dummyOK(u)
            || (r.Found? && Readable(e, x.store, r.info))
            || (r.Missing? && if c.fetchIfMissing then FetchWorks(c, e, x.lock, u) else c.failIfMissing))
  {
    var y := React(c, x, Lookup);
    assert Drive(c, e, x) == Drive(c, e, y);
    if y.handler.Serving? {
      ServeEnds(c, e, y);
    } else if y.handler.Requesting? {
      FetchEnds(c, e, y);
    }
  }
}
