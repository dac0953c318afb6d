/** htvend export: the manifest's digests, once each, copied in parallel under a MultiTasker. */
module Export {
  import opened Basics
  import opened LockFile
  import opened ListenerMethods
  import LockSpec
  import Hex
  import M = MultiTasker

  // Deduplication.

  /** Some entry of the manifest has this digest, in either hex case. */
  ghost predicate Needs(m: LockSpec.Manifest, d: Bytes) {
    exists k :: k in m && Hex.Decode(m[k].sha256) == Some(d)
  }

  ghost predicate Canonical(text: string) {
    Hex.Decode(text).Some? && Hex.Encode(Hex.Decode(text).value) == text
  }

  /** text is the canonical form of this entry's digest. */
  ghost predicate CanonOf(entry: (string, LockSpec.BlobInfo), text: string) {
    Hex.Decode(entry.1.sha256).Some? && Hex.Encode(Hex.Decode(entry.1.sha256).value) == text
  }

  /** The canonical texts of all digests; None when some entry is not hex. */
  method CanonShas(mf: File) returns (r: Option<set<string>>)
    ensures r.None? <==> exists k :: k in mf.blobs.entries && Hex.Decode(mf.blobs.entries[k].sha256).None?
    ensures r.Some? ==> forall t :: t in r.value <==> Canonical(t) && Needs(mf.blobs.entries, Hex.Decode(t).value)
  {
    var visited := mf.ForEach();
    ghost var m := mf.blobs.entries;
    var neededCanonShas: set<string> := {};
    for i := 0 to |visited|
      invariant forall j :: 0 <= j < i ==> Hex.Decode(visited[j].1.sha256).Some?
      invariant forall t :: t in neededCanonShas <==> exists j :: 0 <= j < i && CanonOf(visited[j], t)
    {
      var expected := Hex.Decode(visited[i].1.sha256);
      if expected.None? {
        assert visited[i].0 in m;
        return None;
      }
      neededCanonShas := neededCanonShas + {Hex.Encode(expected.value)};
      assert CanonOf(visited[i], Hex.Encode(expected.value));
    }
    CanonTexts(m, visited, neededCanonShas);
    r := Some(neededCanonShas);
  }

  lemma CanonTexts(m: LockSpec.Manifest, visited: seq<(string, LockSpec.BlobInfo)>, texts: set<string>)
    requires forall i :: 0 <= i < |visited| ==> visited[i].0 in m && m[visited[i].0] == visited[i].1
    requires forall k :: k in m ==> (k, m[k]) in visited
    requires forall i :: 0 <= i < |visited| ==> Hex.Decode(visited[i].1.sha256).Some?
    requires forall t :: t in texts <==> exists j :: 0 <= j < |visited| && CanonOf(visited[j], t)
    ensures forall k :: k in m ==> Hex.Decode(m[k].sha256).Some?
    ensures forall t :: t in texts <==> Canonical(t) && Needs(m, Hex.Decode(t).value)
  {
    forall k | k in m
      ensures exists j :: 0 <= j < |visited| && visited[j] == (k, m[k])
    {
      assert (k, m[k]) in visited;
    }
    forall t
      ensures t in texts <==> Canonical(t) && Needs(m, Hex.Decode(t).value)
    {
      if t in texts {
        var j :| 0 <= j < |visited| && CanonOf(visited[j], t);
        Hex.DecodeEncode(Hex.Decode(visited[j].1.sha256).value);
        assert visited[j].0 in m;
      }
      if Canonical(t) && Needs(m, Hex.Decode(t).value) {
        var k :| k in m && Hex.Decode(m[k].sha256) == Some(Hex.Decode(t).value);
        var j :| 0 <= j < |visited| && visited[j] == (k, m[k]);
        assert CanonOf(visited[j], t);
      }
    }
  }

  /** Decoding the canonical texts again: it always succeeds, so queueing never stops half way, and each digest
      is queued once. */
  method DecodeCanonShas(texts: set<string>) returns (keys: seq<Bytes>)
    requires forall t :: t in texts ==> Canonical(t)
    ensures forall d :: d in keys <==> Hex.Encode(d) in texts
    ensures forall i, j :: 0 <= i < j < |keys| ==> keys[i] != keys[j]
  {
    keys := [];
    var rest := texts;
    while rest != {}
      invariant rest <= texts
      invariant forall d :: d in keys <==> Hex.Encode(d) in texts - rest
      invariant forall i, j :: 0 <= i < j < |keys| ==> keys[i] != keys[j]
      decreases rest
    {
      var t :| t in rest;
      var expected := Hex.Decode(t);
      ghost var before := keys;
      keys := keys + [expected.value];
      rest := rest - {t};
      forall d
        ensures d in keys <==> Hex.Encode(d) in texts - rest
      {
        if Hex.Encode(d) == t {
          Hex.EncodeInjective(d, expected.value);
        }
        assert d in keys <==> d in before || d == expected.value;
      }
    }
  }

  /** The digests that Execute queues: each one that the manifest needs, once; None when an entry is not hex. */
  method NeededKeys(mf: File) returns (r: Option<seq<Bytes>>)
    ensures r.None? <==> exists k :: k in mf.blobs.entries && Hex.Decode(mf.blobs.entries[k].sha256).None?
    ensures r.Some? ==> forall d :: d in r.value <==> Needs(mf.blobs.entries, d)
    ensures r.Some? ==> forall i, j :: 0 <= i < j < |r.value| ==> r.value[i] != r.value[j]
  {
    var texts := CanonShas(mf);
    if texts.None? {
      return None;
    }
    var keys := DecodeCanonShas(texts.value);
    forall d
      ensures d in keys <==> Needs(mf.blobs.entries, d)
    {
      Hex.DecodeEncode(d);
    }
    r := Some(keys);
  }

  // One task.

  datatype Task =
    | Checking(key: Bytes)
    | Fetching(key: Bytes)
    | Copying(key: Bytes, content: Bytes, pos: nat, data: Bytes, absorbed: Bytes)
    | Comparing(key: Bytes, actual: Bytes)
    | Ended(key: Bytes, result: M.Result)

  /** Every act may fail; a failed write leaves the writer broken, so the task only cleans up and ends; a
      failed commit may still have stored the blob. */
  datatype Act =
    | Exists(ok: bool)
    | Get(ok: bool, putOk: bool)
    | Chunk(n: nat, ok: bool)
    | Commit(ok: bool, visible: bool)
    | Cleanup(ok: bool)

  const FAILED: M.Result := Some("export failed")

  /** ensureBlobExported, step by step. */
  function React(h: HashFn, src: Store, dst: Store, task: Task, a: Act): (Store, Task) {
    match (task, a)
    case (Checking(key), Exists(ok)) =>
      (dst, if !ok then Ended(key, FAILED) else if key in dst then Ended(key, None) else Fetching(key))
    case (Fetching(key), Get(ok, putOk)) =>
      (dst, if ok && key in src && putOk then Copying(key, src[key], 0, [], []) else Ended(key, FAILED))
    case (Copying(key, content, pos, data, absorbed), Chunk(n, ok)) =>
      if pos + n > |content| || (n == 0 && ok) then (dst, task)
      else if !ok then (dst, Ended(key, FAILED))
      else
        var chunk := content[pos..pos + n];
        (dst, Copying(key, content, pos + n, data + chunk, absorbed + chunk))
    case (Copying(key, content, pos, data, absorbed), Commit(ok, visible)) =>
      if pos != |content| then (dst, task)
      else
        var digest := h(absorbed);
        (if ok || visible then dst[digest := data] else dst,
         if ok then Comparing(key, digest) else Ended(key, FAILED))
    case (Comparing(key, actual), Cleanup(ok)) =>
      (dst, Ended(key, if actual != key || !ok then FAILED else None))
    case _ => (dst, task)
  }

  /** How far a task is from its end. */
  function Left(src: Store, task: Task): nat {
    match task
    case Checking(key) => 4 + (if key in src then |src[key]| else 0)
    case Fetching(key) => 3 + (if key in src then |src[key]| else 0)
    case Copying(_, content, pos, _, _) => if pos <= |content| then 2 + |content| - pos else 2
    case Comparing(_, _) => 1
    case Ended(_, _) => 0
  }

  // One task that runs alone.

  /** The failures of one copy; the chunk read at a position has the given size, cut to what is left, and
      copyOk says whether reading and writing it works, or, at the end, meeting the end. */
  datatype Env = Env(
    existsOk: bool, getOk: bool, putOk: bool,
    size: nat -> nat, copyOk: nat -> bool,
    commitOk: bool, visible: bool, cleanupOk: bool)

  predicate InContent(task: Task) {
    task.Copying? ==> task.pos <= |task.content|
  }

  function NextAct(env: Env, task: Task): Act
    requires !task.Ended? && InContent(task)
  {
    match task
    case Checking(_) => Exists(env.existsOk)
    case Fetching(_) => Get(env.getOk, env.putOk)
    case Copying(_, content, pos, _, _) =>
      if pos < |content| then Chunk(ReadAt(env.size, |content|, pos), env.copyOk(pos))
      else if !env.copyOk(pos) then Chunk(0, false)
      else Commit(env.commitOk, env.visible)
    case Comparing(_, _) => Cleanup(env.cleanupOk)
  }

  /** Every act of the environment brings the task closer to its end. */
  function Next(h: HashFn, src: Store, env: Env, dst: Store, task: Task): (r: (Store, Task))
    requires InContent(task) && !task.Ended?
    ensures InContent(r.1) && r.1.key == task.key && Left(src, r.1) < Left(src, task)
  {
    React(h, src, dst, task, NextAct(env, task))
  }

  /** What the environment makes of destination and task. */
  function Drive(h: HashFn, src: Store, env: Env, dst: Store, task: Task): (r: (Store, Task))
    requires InContent(task)
    ensures r.1.Ended? && r.1.key == task.key
    decreases Left(src, task)
  {
    if task.Ended? then (dst, task)
    else var (dst', task') := Next(h, src, env, dst, task); Drive(h, src, env, dst', task')
  }

  /** The acts by which it gets there. */
  function Acts(h: HashFn, src: Store, env: Env, dst: Store, task: Task): seq<Act>
    requires InContent(task)
    decreases Left(src, task)
  {
    if task.Ended? then []
    else var (dst', task') := Next(h, src, env, dst, task); [NextAct(env, task)] + Acts(h, src, env, dst', task')
  }

  /** A copy of a content of this length that goes on at pos meets no failing read or write. */
  predicate Clear(env: Env, total: nat, pos: nat)
    requires pos <= total
  {
    AllRead(env.size, env.copyOk, total, pos)
  }

  /** The blob was missing and its source was copied to the end. */
  predicate Copied(src: Store, env: Env, dst: Store, key: Bytes) {
    env.existsOk && key !in dst && env.getOk && key in src && env.putOk && Clear(env, |src[key]|, 0)
  }

  /** How the copy of one blob ends. It is nil exactly when the blob was already there, or the copy was made,
      committed and closed, and its content hashes to the digest asked for. */
  function Outcome(h: HashFn, src: Store, env: Env, dst: Store, key: Bytes): (Store, M.Result) {
    (if Copied(src, env, dst, key) && (env.commitOk || env.visible) then dst[h(src[key]) := src[key]] else dst,
     if env.existsOk
        && (key in dst || (Copied(src, env, dst, key) && env.commitOk && h(src[key]) == key && env.cleanupOk))
     then None else FAILED)
  }

  lemma CommitEnds(h: HashFn, src: Store, env: Env, dst: Store, key: Bytes, content: Bytes)
    requires env.copyOk(|content|)
    ensures
      var (dst', task') := Drive(h, src, env, dst, Copying(key, content, |content|, content, content));
      && dst' == (if env.commitOk || env.visible then dst[h(content) := content] else dst)
      && task' == Ended(key, if env.commitOk && h(content) == key && env.cleanupOk then None else FAILED)
  {
    var (dst', next) := Next(h, src, env, dst, Copying(key, content, |content|, content, content));
    if env.commitOk {
      var (end, ended) := Next(h, src, env, dst', next);
      assert Drive(h, src, env, dst', next) == (end, ended);
    }
  }

  lemma {:induction false} CopyEnds(h: HashFn, src: Store, env: Env, dst: Store, task: Task)
    requires task.Copying? && InContent(task) && task.data == task.absorbed == task.content[..task.pos]
    ensures
      var Copying(key, content, pos, _, _) := task;
      var (dst', task') := Drive(h, src, env, dst, task);
      && dst' == (if Clear(env, |content|, pos) && (env.commitOk || env.visible) then dst[h(content) := content] else dst)
      && task' == Ended(key,
           if Clear(env, |content|, pos) && env.commitOk && h(content) == key && env.cleanupOk then None else FAILED)
    decreases Left(src, task)
  {
    var Copying(key, content, pos, _, _) := task;
    if pos == |content| {
      assert content[..pos] == content;
      EndNext(h, src, env, dst, task);
      if env.copyOk(pos) {
        CommitEnds(h, src, env, dst, key, content);
      }
    } else {
      var next := ChunkNext(h, src, env, dst, task);
      if env.copyOk(pos) {
        CopyEnds(h, src, env, dst, next);
      }
    }
  }

  lemma EndNext(h: HashFn, src: Store, env: Env, dst: Store, task: Task)
    requires task.Copying? && task.pos == |task.content|
    ensures !env.copyOk(task.pos) ==> Drive(h, src, env, dst, task) == (dst, Ended(task.key, FAILED))
  {
    if !env.copyOk(task.pos) {
      assert Drive(h, src, env, dst, task) == Next(h, src, env, dst, task);
    }
  }

  lemma ChunkNext(h: HashFn, src: Store, env: Env, dst: Store, task: Task) returns (next: Task)
    requires task.Copying? && task.pos < |task.content| && task.data == task.absorbed == task.content[..task.pos]
    ensures InContent(next) && Drive(h, src, env, dst, task) == Drive(h, src, env, dst, next) && Left(src, next) < Left(src, task)
    ensures
      var pos := task.pos + ReadAt(env.size, |task.content|, task.pos);
      next == if env.copyOk(task.pos)
        then Copying(task.key, task.content, pos, task.content[..pos], task.content[..pos])
        else Ended(task.key, FAILED)
  {
    var n := ReadAt(env.size, |task.content|, task.pos);
    assert task.content[..task.pos + n] == task.content[..task.pos] + task.content[task.pos..task.pos + n];
    next := Next(h, src, env, dst, task).1;
  }

  lemma DriveEnds(h: HashFn, src: Store, env: Env, dst: Store, key: Bytes)
    ensures
      var (dst', task') := Drive(h, src, env, dst, Checking(key));
      (dst', task') == (Outcome(h, src, env, dst, key).0, Ended(key, Outcome(h, src, env, dst, key).1))
  {
    if env.existsOk && key !in dst {
      assert Drive(h, src, env, dst, Checking(key)) == Drive(h, src, env, dst, Fetching(key));
      if env.getOk && key in src && env.putOk {
        var task := Copying(key, src[key], 0, [], []);
        assert Drive(h, src, env, dst, Fetching(key)) == Drive(h, src, env, dst, task);
        CopyEnds(h, src, env, dst, task);
      } else {
        assert Drive(h, src, env, dst, Fetching(key)) == Next(h, src, env, dst, Fetching(key));
      }
    }
  }

  /** ensureBlobExported when it runs alone: it ends where its environment drives the task, and that is its
      closed form. */
  method EnsureBlobExported(src: BlobStore, dst: BlobStore, expectedH: Bytes, env: Env) returns (result: M.Result)
    requires src != dst
    modifies dst
    ensures (dst.blobs, Ended(expectedH, result)) == Drive(dst.hash, src.blobs, env, old(dst.blobs), Checking(expectedH))
    ensures result == None <==>
      && env.existsOk
      && (expectedH in old(dst.blobs)
          || (&& env.getOk && expectedH in src.blobs && env.putOk
              && (forall p :: p in Reads(env.size, |src.blobs[expectedH]|, 0) ==> env.copyOk(p))
              && env.commitOk && dst.hash(src.blobs[expectedH]) == expectedH && env.cleanupOk))
    ensures dst.blobs ==
      if env.existsOk && expectedH !in old(dst.blobs) && env.getOk && expectedH in src.blobs && env.putOk
         && (forall p :: p in Reads(env.size, |src.blobs[expectedH]|, 0) ==> env.copyOk(p))
         && (env.commitOk || env.visible)
      then old(dst.blobs)[dst.hash(src.blobs[expectedH]) := src.blobs[expectedH]]
      else old(dst.blobs)
  {
    DriveEnds(dst.hash, src.blobs, env, dst.blobs, expectedH);
    if expectedH in src.blobs {
      AllReadAt(env.size, env.copyOk, |src.blobs[expectedH]|, 0);
    }
    if !env.existsOk {
      return FAILED;
    }
    if expectedH in dst.blobs {
      return None;
    }
    if !env.getOk || expectedH !in src.blobs || !env.putOk {
      return FAILED;
    }
    var content := src.blobs[expectedH];
    var pos, data, absorbed := 0, [], [];
    while pos < |content|
      invariant 0 <= pos <= |content|
      invariant data == absorbed == content[..pos]
      invariant Clear(env, |content|, 0) <==> Clear(env, |content|, pos)
    {
      if !env.copyOk(pos) {
        return FAILED;
      }
      var n := ReadAt(env.size, |content|, pos);
      assert content[..pos + n] == content[..pos] + content[pos..pos + n];
      data, absorbed, pos := data + content[pos..pos + n], absorbed + content[pos..pos + n], pos + n;
    }
    assert content[..pos] == content;
    if !env.copyOk(pos) {
      return FAILED;
    }
    var actualH := dst.hash(absorbed);
    if env.commitOk || env.visible {
      dst.blobs := dst.blobs[actualH := data];
    }
    if !env.commitOk {
      return FAILED;
    }
    result := if actualH != expectedH || !env.cleanupOk then FAILED else None;
  }

  // All tasks under a MultiTasker.

  datatype State = State(dst: Store, tasks: seq<Task>, mt: M.State)

  datatype Step = Work(i: nat, act: Act) | Tasker(step: M.Step)

  function Start(dst: Store, keys: seq<Bytes>): State {
    State(dst, seq(|keys|, i requires 0 <= i < |keys| => Checking(keys[i])), M.Start(|keys|))
  }

  /** A task works once it is queued, and the tasker only sees it return with the result it ended with. */
  function Apply(h: HashFn, src: Store, s: State, step: Step): State {
    match step
    case Work(i, a) =>
      if i < |s.tasks| && i < |s.mt.workers| && s.mt.workers[i].Running? then
        var (dst, task) := React(h, src, s.dst, s.tasks[i], a);
        s.(dst := dst, tasks := s.tasks[i := task])
      else s
    case Tasker(step) =>
      if step.Return? && !(step.i < |s.tasks| && s.tasks[step.i] == Ended(s.tasks[step.i].key, step.result)) then s
      else s.(mt := M.Apply(s.mt, step))
  }

  function Run(h: HashFn, src: Store, s: State, steps: seq<Step>): State
    decreases |steps|
  {
    if steps == [] then s else Run(h, src, Apply(h, src, s, steps[0]), steps[1..])
  }

  /** A task that is left alone takes the export where its environment drives it. */
  lemma {:induction false} AloneInExport(h: HashFn, src: Store, s: State, i: nat, env: Env)
    requires i < |s.tasks| && i < |s.mt.workers| && s.mt.workers[i].Running? && InContent(s.tasks[i])
    ensures
      var acts := Acts(h, src, env, s.dst, s.tasks[i]);
      var (dst, task) := Drive(h, src, env, s.dst, s.tasks[i]);
      Run(h, src, s, seq(|acts|, j requires 0 <= j < |acts| => Work(i, acts[j]))) == s.(dst := dst, tasks := s.tasks[i := task])
    decreases Left(src, s.tasks[i])
  {
    var acts := Acts(h, src, env, s.dst, s.tasks[i]);
    var (dst, task) := Drive(h, src, env, s.dst, s.tasks[i]);
    if s.tasks[i].Ended? {
      assert s.tasks[i := s.tasks[i]] == s.tasks;
    } else {
      var steps := seq(|acts|, j requires 0 <= j < |acts| => Work(i, acts[j]));
      var (dst', task') := Next(h, src, env, s.dst, s.tasks[i]);
      var t := s.(dst := dst', tasks := s.tasks[i := task']);
      assert Apply(h, src, s, steps[0]) == t;
      assert steps[1..] == seq(|acts[1..]|, j requires 0 <= j < |acts[1..]| => Work(i, acts[1..][j]));
      AloneInExport(h, src, t, i, env);
      assert t.tasks[i := task] == s.tasks[i := task];
    }
  }

  /** What the tasker alone sees of a run. */
  function Schedule(h: HashFn, src: Store, s: State, steps: seq<Step>): seq<M.Step>
    decreases |steps|
  {
    if steps == [] then []
    else
      var t := Apply(h, src, s, steps[0]);
      (if steps[0].Tasker? && t.mt == M.Apply(s.mt, steps[0].step) then [steps[0].step] else [])
      + Schedule(h, src, t, steps[1..])
  }

  lemma {:induction false} RunProjects(h: HashFn, src: Store, s: State, steps: seq<Step>)
    ensures Run(h, src, s, steps).mt == M.Run(s.mt, Schedule(h, src, s, steps))
    decreases |steps|
  {
    if steps != [] {
      var t := Apply(h, src, s, steps[0]);
      RunProjects(h, src, t, steps[1..]);
      var rest := Schedule(h, src, t, steps[1..]);
      if steps[0].Tasker? && t.mt == M.Apply(s.mt, steps[0].step) {
        assert ([steps[0].step] + rest)[1..] == rest;
      } else {
        assert [] + rest == rest;
      }
    }
  }

  // Safety.

  ghost predicate TaskOk(h: HashFn, dst: Store, task: Task) {
    match task
    case Copying(_, content, pos, data, absorbed) => pos <= |content| && data == absorbed == content[..pos]
    case Comparing(_, actual) => actual in dst
    case Ended(key, result) => result == None ==> key in dst
    case _ => true
  }

  ghost predicate WorkerOk(w: M.Worker, task: Task) {
    !w.Running? ==> task.Ended? && task.result == w.result
  }

  ghost predicate Inv(h: HashFn, keys: seq<Bytes>, s: State) {
    && WellFormed(h, s.dst)
    && |s.tasks| == |keys| && |s.mt.workers| <= |keys|
    && (forall i :: 0 <= i < |keys| ==> s.tasks[i].key == keys[i] && TaskOk(h, s.dst, s.tasks[i]))
    && (forall i :: 0 <= i < |s.mt.workers| ==> WorkerOk(s.mt.workers[i], s.tasks[i]))
    && (s.mt.caller.Queueing? ==> |s.mt.workers| + s.mt.caller.todo == |keys|)
  }

  lemma ReactOk(h: HashFn, src: Store, dst: Store, task: Task, a: Act)
    requires WellFormed(h, dst) && TaskOk(h, dst, task)
    ensures
      var (dst', task') := React(h, src, dst, task, a);
      && WellFormed(h, dst') && TaskOk(h, dst', task') && task'.key == task.key
      && (forall d :: d in dst ==> d in dst')
      && (task.Ended? ==> task' == task)
  {
    match (task, a)
    case (Copying(key, content, pos, data, absorbed), Chunk(n, ok)) =>
      if 0 < n && pos + n <= |content| {
        assert content[..pos + n] == content[..pos] + content[pos..pos + n];
      }
    case _ =>
  }

  lemma ApplyOk(h: HashFn, src: Store, keys: seq<Bytes>, s: State, step: Step)
    requires Inv(h, keys, s)
    ensures var t := Apply(h, src, s, step); Inv(h, keys, t) && forall d :: d in s.dst ==> d in t.dst
  {
    match step
    case Work(i, a) =>
      if i < |s.tasks| && i < |s.mt.workers| && s.mt.workers[i].Running? {
        ReactOk(h, src, s.dst, s.tasks[i], a);
      }
    case Tasker(m) => TaskerOk(h, src, keys, s, m);
  }

  lemma TaskerOk(h: HashFn, src: Store, keys: seq<Bytes>, s: State, m: M.Step)
    requires Inv(h, keys, s)
    ensures Inv(h, keys, Apply(h, src, s, Tasker(m)))
  {
    var t := Apply(h, src, s, Tasker(m));
    forall i | 0 <= i < |t.mt.workers|
      ensures WorkerOk(t.mt.workers[i], t.tasks[i])
    {
      if i < |s.mt.workers| {
        assert WorkerOk(s.mt.workers[i], s.tasks[i]);
      }
    }
  }

  lemma {:induction false} RunOk(h: HashFn, src: Store, keys: seq<Bytes>, s: State, steps: seq<Step>)
    requires Inv(h, keys, s)
    ensures var t := Run(h, src, s, steps); Inv(h, keys, t) && forall d :: d in s.dst ==> d in t.dst
    decreases |steps|
  {
    if steps != [] {
      ApplyOk(h, src, keys, s, steps[0]);
      RunOk(h, src, keys, Apply(h, src, s, steps[0]), steps[1..]);
    }
  }

  /** Over any scheduling and any failures: no blob of the destination is lost and none is ever stored under a
      digest that is not its own, even when the source is corrupt; and an export that returns nil has every
      digest of the manifest in the destination, with content that hashes to it. */
  lemma ExportComplete(h: HashFn, src: Store, dst: Store, m: LockSpec.Manifest, keys: seq<Bytes>, steps: seq<Step>)
    requires WellFormed(h, dst)
    requires forall d :: d in keys <==> Needs(m, d)
    ensures
      var t := Run(h, src, Start(dst, keys), steps);
      && WellFormed(h, t.dst) && (forall d :: d in dst ==> d in t.dst)
      && !t.mt.panicked
      && (t.mt.caller.Returned? && t.mt.rvErr == None ==>
            forall d :: Needs(m, d) ==> d in t.dst && h(t.dst[d]) == d)
  {
    var s := Start(dst, keys);
    var t := Run(h, src, s, steps);
    RunOk(h, src, keys, s, steps);
    RunProjects(h, src, s, steps);
    M.WaitConserves(|keys|, Schedule(h, src, s, steps));
    if t.mt.caller.Returned? && t.mt.rvErr == None {
      forall d | Needs(m, d)
        ensures d in t.dst
      {
        var i :| 0 <= i < |keys| && keys[i] == d;
        assert t.mt.workers[i].Finished? && WorkerOk(t.mt.workers[i], t.tasks[i]);
        assert TaskOk(h, t.dst, t.tasks[i]);
      }
    }
  }

  // A second export.

  ghost predicate Idle(dst: Store, s: State) {
    s.dst == dst && forall i :: 0 <= i < |s.tasks| ==> s.tasks[i].key in dst && (s.tasks[i].Checking? || s.tasks[i].Ended?)
  }

  lemma {:induction false} RunIdle(h: HashFn, src: Store, dst: Store, s: State, steps: seq<Step>)
    requires Idle(dst, s)
    ensures Idle(dst, Run(h, src, s, steps))
    decreases |steps|
  {
    if steps != [] {
      RunIdle(h, src, dst, Apply(h, src, s, steps[0]), steps[1..]);
    }
  }

  /** Exporting again to a destination that an export has completed, in whatever order and schedule, finds
      every blob there: no task gets beyond its check, and the destination stays as it is. */
  lemma ExportIdempotent(h: HashFn, src: Store, dst: Store, m: LockSpec.Manifest, keys: seq<Bytes>, first: seq<Step>,
                         src': Store, keys': seq<Bytes>, second: seq<Step>)
    requires WellFormed(h, dst)
    requires forall d :: d in keys <==> Needs(m, d)
    requires forall d :: d in keys' ==> Needs(m, d)
    requires var t := Run(h, src, Start(dst, keys), first); t.mt.caller.Returned? && t.mt.rvErr == None
    ensures
      var t := Run(h, src, Start(dst, keys), first);
      var u := Run(h, src', Start(t.dst, keys'), second);
      u.dst == t.dst && forall i :: 0 <= i < |u.tasks| ==> u.tasks[i].Checking? || u.tasks[i].Ended?
  {
    ExportComplete(h, src, dst, m, keys, first);
    var t := Run(h, src, Start(dst, keys), first);
    forall i | 0 <= i < |keys'|
      ensures keys'[i] in t.dst
    {
      assert keys'[i] in keys';
    }
    RunIdle(h, src', t.dst, Start(t.dst, keys'), second);
  }

  // Success and progress.

  predicate Calm(a: Act) {
    match a
    case Exists(ok) => ok
    case Get(ok, putOk) => ok && putOk
    case Chunk(_, ok) => ok
    case Commit(ok, _) => ok
    case Cleanup(ok) => ok
  }

  ghost predicate CalmRun(steps: seq<Step>) {
    forall i :: 0 <= i < |steps| && steps[i].Work? ==> Calm(steps[i].act)
  }

  ghost predicate Winning(h: HashFn, task: Task) {
    match task
    case Copying(key, content, pos, data, absorbed) => h(content) == key
    case Comparing(key, actual) => actual == key
    case Ended(_, result) => result == None
    case _ => true
  }

  lemma {:induction false} RunWins(h: HashFn, src: Store, keys: seq<Bytes>, s: State, steps: seq<Step>)
    requires Inv(h, keys, s) && CalmRun(steps)
    requires WellFormed(h, src) && forall i :: 0 <= i < |keys| ==> keys[i] in src || keys[i] in s.dst
    requires forall i :: 0 <= i < |keys| ==> Winning(h, s.tasks[i]) && (s.tasks[i].Fetching? ==> keys[i] in src)
    ensures
      var t := Run(h, src, s, steps);
      |t.tasks| == |keys| && forall i :: 0 <= i < |keys| ==> Winning(h, t.tasks[i])
    decreases |steps|
  {
    if steps != [] {
      var t := Apply(h, src, s, steps[0]);
      ApplyOk(h, src, keys, s, steps[0]);
      forall i | 0 <= i < |keys|
        ensures Winning(h, t.tasks[i]) && (t.tasks[i].Fetching? ==> keys[i] in src)
      {
        if steps[0].Work? && steps[0].i == i && s.tasks[i].Copying? && s.tasks[i].pos == |s.tasks[i].content| {
          assert TaskOk(h, s.dst, s.tasks[i]);
          assert s.tasks[i].content[..s.tasks[i].pos] == s.tasks[i].content;
        }
      }
      assert forall i :: 0 <= i < |steps[1..]| ==> steps[1..][i] == steps[i + 1];
      RunWins(h, src, keys, t, steps[1..]);
    }
  }

  /** Without I/O failures, and with every needed blob intact in the source or already in the destination, an
      export that returns, returns nil. */
  lemma ExportSucceeds(h: HashFn, src: Store, dst: Store, keys: seq<Bytes>, steps: seq<Step>)
    requires WellFormed(h, src) && WellFormed(h, dst) && CalmRun(steps)
    requires forall i :: 0 <= i < |keys| ==> keys[i] in src || keys[i] in dst
    ensures var t := Run(h, src, Start(dst, keys), steps); t.mt.caller.Returned? ==> t.mt.rvErr == None
  {
    var s := Start(dst, keys);
    var t := Run(h, src, s, steps);
    RunOk(h, src, keys, s, steps);
    RunWins(h, src, keys, s, steps);
    RunProjects(h, src, s, steps);
    M.WaitConserves(|keys|, Schedule(h, src, s, steps));
    if t.mt.caller.Returned? {
      forall i | 0 <= i < |keys|
        ensures t.mt.workers[i].result == None
      {
        assert t.mt.workers[i].Finished? && WorkerOk(t.mt.workers[i], t.tasks[i]);
        assert Winning(h, t.tasks[i]);
      }
    }
  }

  predicate CalmStep(step: Step) {
    step.Work? ==> Calm(step.act)
  }

  /** The export never gets stuck: until Wait returns, some task or the tasker can move without a failure. */
  lemma ExportProgress(h: HashFn, src: Store, dst: Store, keys: seq<Bytes>, steps: seq<Step>) returns (next: Step)
    requires WellFormed(h, dst)
    requires !Run(h, src, Start(dst, keys), steps).mt.caller.Returned?
    ensures var t := Run(h, src, Start(dst, keys), steps); CalmStep(next) && Apply(h, src, t, next) != t
  {
    var s := Start(dst, keys);
    var t := Run(h, src, s, steps);
    RunOk(h, src, keys, s, steps);
    RunProjects(h, src, s, steps);
    M.RunSync(M.Start(|keys|), |keys|, Schedule(h, src, s, steps));
    var step := M.Enabled(t.mt, |keys|);
    if !step.Return? {
      next := Tasker(step);
    } else {
      var i := step.i;
      match t.tasks[i]
      case Ended(key, result) =>
        next := Tasker(M.Return(i, result));
        assert Apply(h, src, t, next).mt.workers[i] == M.Sending(result);
      case _ =>
        assert TaskOk(h, t.dst, t.tasks[i]);
        var a := CalmAct(h, src, t.dst, t.tasks[i]);
        next := Work(i, a);
        assert Apply(h, src, t, next).tasks[i] != t.tasks[i];
    }
  }

  /** A task that has not ended can go on without a failure of its own. */
  lemma CalmAct(h: HashFn, src: Store, dst: Store, task: Task) returns (a: Act)
    requires !task.Ended? && InContent(task)
    ensures Calm(a) && React(h, src, dst, task, a).1 != task
  {
    match task
    case Checking(_) => a := Exists(true);
    case Fetching(_) => a := Get(true, true);
    case Comparing(_, _) => a := Cleanup(true);
    case Copying(_, content, pos, _, _) => a := if pos == |content| then Commit(true, true) else Chunk(1, true);
  }

  /** Without failures and with every needed blob at hand, a schedule that has nothing left to do has
      returned nil with the export complete. */
  lemma ExportFinishes(h: HashFn, src: Store, dst: Store, m: LockSpec.Manifest, keys: seq<Bytes>, steps: seq<Step>)
    requires WellFormed(h, src) && WellFormed(h, dst) && CalmRun(steps)
    requires forall d :: d in keys <==> Needs(m, d)
    requires forall i :: 0 <= i < |keys| ==> keys[i] in src || keys[i] in dst
    requires var t := Run(h, src, Start(dst, keys), steps); forall step :: CalmStep(step) ==> Apply(h, src, t, step) == t
    ensures
      var t := Run(h, src, Start(dst, keys), steps);
      && t.mt.caller.Returned? && t.mt.rvErr == None
      && forall d :: Needs(m, d) ==> d in t.dst && h(t.dst[d]) == d
  {
    if !Run(h, src, Start(dst, keys), steps).mt.caller.Returned? {
      var next := ExportProgress(h, src, dst, keys, steps);
    }
    ExportSucceeds(h, src, dst, keys, steps);
    ExportComplete(h, src, dst, m, keys, steps);
  }

  // Termination.

  function AllLeft(src: Store, tasks: seq<Task>): nat {
    if tasks == [] then 0 else Left(src, tasks[0]) + AllLeft(src, tasks[1..])
  }

  lemma {:induction false} UpdateLeft(src: Store, tasks: seq<Task>, i: nat, task: Task)
    requires i < |tasks|
    ensures AllLeft(src, tasks[i := task]) + Left(src, tasks[i]) == AllLeft(src, tasks) + Left(src, task)
  {
    if i == 0 {
      assert tasks[i := task][1..] == tasks[1..];
    } else {
      assert tasks[i := task][1..] == tasks[1..][i - 1 := task];
      UpdateLeft(src, tasks[1..], i - 1, task);
    }
  }

  lemma ReactDecreases(h: HashFn, src: Store, dst: Store, task: Task, a: Act)
    requires TaskOk(h, dst, task)
    ensures React(h, src, dst, task, a) == (dst, task) || Left(src, React(h, src, dst, task, a).1) < Left(src, task)
  {
  }

  function Measure(src: Store, s: State): nat {
    AllLeft(src, s.tasks) + M.Measure(s.mt)
  }

  ghost predicate Effective(h: HashFn, src: Store, s: State, steps: seq<Step>)
    decreases |steps|
  {
    steps == [] || (Apply(h, src, s, steps[0]) != s && Effective(h, src, Apply(h, src, s, steps[0]), steps[1..]))
  }

  lemma {:induction false} EffectiveBounded(h: HashFn, src: Store, keys: seq<Bytes>, s: State, steps: seq<Step>)
    requires Inv(h, keys, s) && M.Sync(s.mt, |keys|) && Effective(h, src, s, steps)
    ensures |steps| <= Measure(src, s)
    decreases |steps|
  {
    if steps != [] {
      var t := Apply(h, src, s, steps[0]);
      ApplyOk(h, src, keys, s, steps[0]);
      match steps[0] {
        case Work(i, a) =>
          ReactDecreases(h, src, s.dst, s.tasks[i], a);
          UpdateLeft(src, s.tasks, i, t.tasks[i]);
          assert s.tasks[i := s.tasks[i]] == s.tasks;
        case Tasker(m) =>
          M.ApplySync(s.mt, |keys|, m);
          M.ApplyDecreases(s.mt, |keys|, m);
      }
      EffectiveBounded(h, src, keys, t, steps[1..]);
    }
  }

  /** Every schedule of an export is finite: the number of its effective steps is bounded by the sizes of the
      source blobs and the number of digests. */
  lemma ExportTerminates(h: HashFn, src: Store, dst: Store, keys: seq<Bytes>, steps: seq<Step>)
    requires WellFormed(h, dst) && Effective(h, src, Start(dst, keys), steps)
    ensures |steps| <= Measure(src, Start(dst, keys))
  {
    EffectiveBounded(h, src, keys, Start(dst, keys), steps);
  }
}
