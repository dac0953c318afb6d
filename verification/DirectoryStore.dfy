/** The directory store: temporary files that are renamed to their digest. First the system calls of many
    writers on one directory, in any order; then the classes, whose methods are sequences of those calls. */
module DirectoryStore {
  import opened Basics
  import Hex

  type Files = map<string, Bytes>

  predicate IsTemp(name: string) {
    "tmp" <= name
  }

  function Resolve(digest: Bytes): string {
    Hex.Encode(digest)
  }

  function Lookup(files: Files, digest: Bytes): Option<Bytes> {
    if Resolve(digest) in files then Some(files[Resolve(digest)]) else None
  }

  function Reading(files: Files): Reader {
    d => Lookup(files, d)
  }

  lemma TempIsNotCanonical(name: string, digest: Bytes)
    requires "tmp" <= name
    ensures name != Hex.Encode(digest)
  {
    Hex.EncodeAlphabet(digest);
    assert name[0] == 't';
  }

  /** tf is the temporary file, dg what the digest has absorbed. */
  datatype Writer = Writer(tf: Option<string>, dg: Option<Bytes>, size: nat)

  datatype View = View(w: Writer, files: Files)

  const FRESH := Writer(None, None, 0)

  // One system call each.

  function Create(v: View, name: string): View {
    View(v.w.(tf := Some(name), dg := Some([])), v.files[name := []])
  }

  /** The multi-writer gives the bytes to the file first; if the file keeps only some of them, the digest
      gets none. */
  function Append(v: View, p: Bytes, kept: Option<nat>): View
    requires v.w.tf.Some? && v.w.tf.value in v.files && v.w.dg.Some? && (kept.Some? ==> kept.value <= |p|)
  {
    var n := if kept.Some? then kept.value else |p|;
    View(Writer(v.w.tf, if kept.Some? then v.w.dg else Some(v.w.dg.value + p), v.w.size + n),
         v.files[v.w.tf.value := v.files[v.w.tf.value] + if kept.Some? then p[..n] else p])
  }

  function Rename(h: HashFn, v: View): View
    requires v.w.tf.Some? && v.w.tf.value in v.files && v.w.dg.Some?
  {
    View(Writer(None, None, v.w.size),
         (v.files - {v.w.tf.value})[Resolve(h(v.w.dg.value)) := v.files[v.w.tf.value]])
  }

  function Unlink(v: View, removed: bool): View {
    View(Writer(None, None, v.w.size),
         if v.w.tf.Some? && removed then v.files - {v.w.tf.value} else v.files)
  }

  // Many writers.

  /** Broken means that a write or a rename of this writer has failed: its caller only cleans up. */
  datatype Slot = Slot(w: Writer, broken: bool)

  datatype Shared = Shared(files: Files, slots: map<nat, Slot>)

  datatype Call =
    | Put
    | DoCreate(name: string)
    | CreateFails
    | DoAppend(p: Bytes, kept: Option<nat>)
    | DoRename
    | RenameFails
    | DoCleanup

  function Place(s: Shared, id: nat, v: View, broken: bool): Shared {
    Shared(v.files, s.slots[id := Slot(v.w, broken)])
  }

  /** Calls that do not fit change nothing. The system never hands out a temporary name in use, and unlink
      succeeds. */
  function Perform(h: HashFn, s: Shared, id: nat, call: Call): Shared {
    if id !in s.slots then
      if call.Put? then s.(slots := s.slots[id := Slot(FRESH, false)]) else s
    else
      var slot := s.slots[id];
      var v := View(slot.w, s.files);
      var open := slot.w.tf.Some? && slot.w.tf.value in s.files && slot.w.dg.Some?;
      match call
      case Put => s
      case DoCreate(name) =>
        if slot.w.tf.None? && IsTemp(name) && name !in s.files then Place(s, id, Create(v, name), slot.broken) else s
      case CreateFails =>
        if slot.w.tf.None? then Place(s, id, View(slot.w.(dg := Some([])), s.files), true) else s
      case DoAppend(p, kept) =>
        if open && !slot.broken && (kept.Some? ==> kept.value <= |p|) then
          Place(s, id, Append(v, p, kept), kept.Some?)
        else s
      case DoRename => if open && !slot.broken then Place(s, id, Rename(h, v), false) else s
      case RenameFails => if open then Place(s, id, v, true) else s
      case DoCleanup => Place(s, id, Unlink(v, true), slot.broken)
  }

  function PerformAll(h: HashFn, s: Shared, calls: seq<(nat, Call)>): Shared
    decreases |calls|
  {
    if calls == [] then s else PerformAll(h, Perform(h, s, calls[0].0, calls[0].1), calls[1..])
  }

  ghost predicate Canonical(h: HashFn, files: Files) {
    forall d :: Resolve(d) in files ==> h(files[Resolve(d)]) == d
  }

  ghost predicate Owns(s: Shared, id: nat, name: string) {
    id in s.slots && s.slots[id].w.tf == Some(name)
  }

  /** The temporary files are those of the open writers, plus stale ones left by dead processes. */
  ghost predicate TempsOwned(s: Shared, stale: set<string>) {
    && (forall name :: name in s.files && IsTemp(name) && name !in stale ==> exists id :: Owns(s, id, name))
    && (forall id, name :: Owns(s, id, name) ==> name in s.files && IsTemp(name) && name !in stale)
    && (forall i, j, name :: Owns(s, i, name) && Owns(s, j, name) ==> i == j)
  }

  ghost predicate Intact(s: Shared) {
    forall id :: id in s.slots && s.slots[id].w.tf.Some? ==>
      s.slots[id].w.tf.value in s.files && s.slots[id].w.dg.Some? &&
      (!s.slots[id].broken ==> s.slots[id].w.dg.value == s.files[s.slots[id].w.tf.value])
  }

  ghost predicate SharedOk(h: HashFn, s: Shared, stale: set<string>) {
    && stale <= s.files.Keys
    && Canonical(h, s.files)
    && TempsOwned(s, stale)
    && Intact(s)
  }

  ghost predicate KeepsBlobs(before: Files, after: Files) {
    forall d :: Resolve(d) in before ==> Resolve(d) in after
  }

  /** One writer moved from one temporary file to another, or to none, and touched no other. */
  lemma PlaceOk(h: HashFn, s: Shared, id: nat, v: View, broken: bool, stale: set<string>)
    requires SharedOk(h, s, stale) && id in s.slots
    requires Canonical(h, v.files) && stale <= v.files.Keys
    requires
      var before, after := s.slots[id].w.tf, v.w.tf;
      && (forall name :: IsTemp(name) && Some(name) != before && Some(name) != after ==>
           (name in v.files <==> name in s.files) && (name in s.files ==> v.files[name] == s.files[name]))
      && (before.Some? && before != after ==> before.value !in v.files)
      && (after.Some? ==>
           && after.value in v.files && IsTemp(after.value)
           && (after == before || after.value !in s.files)
           && v.w.dg.Some? && (!broken ==> v.w.dg.value == v.files[after.value]))
    ensures SharedOk(h, Place(s, id, v, broken), stale)
  {
    var t := Place(s, id, v, broken);
    var before, after := s.slots[id].w.tf, v.w.tf;
    forall i, name
      ensures Owns(t, i, name) <==> if i == id then after == Some(name) else Owns(s, i, name)
    {
    }
    if before.Some? {
      assert Owns(s, id, before.value);
    }
    forall name | name in t.files && IsTemp(name) && name !in stale
      ensures exists i :: Owns(t, i, name)
    {
      if after == Some(name) {
        assert Owns(t, id, name);
      } else {
        var i :| Owns(s, i, name);
        assert Owns(t, i, name);
      }
    }
    forall i | i in t.slots && t.slots[i].w.tf.Some? && i != id
      ensures
        && t.slots[i].w.tf.value in t.files
        && (!t.slots[i].broken ==> t.slots[i].w.dg.value == t.files[t.slots[i].w.tf.value])
    {
      assert Owns(s, i, s.slots[i].w.tf.value);
    }
  }

  /** Committing an intact writer publishes what its caller wrote, under its own digest, and nothing else. */
  lemma RenameOk(h: HashFn, s: Shared, id: nat, stale: set<string>)
    requires SharedOk(h, s, stale) && id in s.slots && s.slots[id].w.tf.Some? && !s.slots[id].broken
    ensures
      var w := s.slots[id].w;
      var t := Place(s, id, Rename(h, View(w, s.files)), false);
      && SharedOk(h, t, stale) && KeepsBlobs(s.files, t.files)
      && (forall name :: !Owns(t, id, name))
      && s.files[w.tf.value] == w.dg.value
      && (forall d :: Lookup(t.files, d) == if d == h(w.dg.value) then Some(w.dg.value) else Lookup(s.files, d))
  {
    var w := s.slots[id].w;
    var v := Rename(h, View(w, s.files));
    assert Owns(s, id, w.tf.value);
    var name := Resolve(h(w.dg.value));
    forall d
      ensures Resolve(d) == name ==> d == h(w.dg.value)
    {
      if Resolve(d) == name {
        Hex.EncodeInjective(d, h(w.dg.value));
      }
    }
    forall temp, d | IsTemp(temp)
      ensures temp != Resolve(d)
    {
      TempIsNotCanonical(temp, d);
    }
    PlaceOk(h, s, id, v, false, stale);
  }

  lemma PerformOk(h: HashFn, s: Shared, id: nat, call: Call, stale: set<string>)
    requires SharedOk(h, s, stale)
    ensures var t := Perform(h, s, id, call); SharedOk(h, t, stale) && KeepsBlobs(s.files, t.files)
  {
    var t := Perform(h, s, id, call);
    if id !in s.slots {
      assert forall i, name :: Owns(t, i, name) <==> Owns(s, i, name);
    } else if t != s {
      forall temp, d | IsTemp(temp)
        ensures temp != Resolve(d)
      {
        TempIsNotCanonical(temp, d);
      }
      var tf := s.slots[id].w.tf;
      if tf.Some? {
        assert Owns(s, id, tf.value);
      }
      if call.DoRename? {
        RenameOk(h, s, id, stale);
      } else {
        PlaceOk(h, s, id, View(t.slots[id].w, t.files), t.slots[id].broken, stale);
      }
    }
  }

  /** Over any interleaving of any writers: no canonical name ever shows bytes that do not hash to it, no
      blob disappears, and the temporary files are exactly those of the writers not yet committed or
      cleaned up. */
  lemma {:induction false} PerformAllOk(h: HashFn, s: Shared, calls: seq<(nat, Call)>, stale: set<string>)
    requires SharedOk(h, s, stale)
    ensures var t := PerformAll(h, s, calls); SharedOk(h, t, stale) && KeepsBlobs(s.files, t.files)
    decreases |calls|
  {
    if calls != [] {
      PerformOk(h, s, calls[0].0, calls[0].1, stale);
      PerformAllOk(h, Perform(h, s, calls[0].0, calls[0].1), calls[1..], stale);
    }
  }

  /** What a writer has committed stays readable under its digest, whatever all writers do afterwards, unless
      somebody commits a colliding content. */
  lemma CommittedStays(h: HashFn, s: Shared, id: nat, calls: seq<(nat, Call)>, stale: set<string>)
    requires SharedOk(h, s, stale) && id in s.slots && s.slots[id].w.tf.Some? && !s.slots[id].broken
    ensures
      var content := s.slots[id].w.dg.value;
      var found := Lookup(PerformAll(h, Perform(h, s, id, DoRename), calls).files, h(content));
      found.Some? && (found.value == content || Collides(h, found.value, content))
  {
    RenameOk(h, s, id, stale);
    PerformAllOk(h, Perform(h, s, id, DoRename), calls, stale);
  }

  /** What a call publishes: the content of an intact writer, at its rename. */
  function Publishes(s: Shared, id: nat, call: Call): Option<Bytes> {
    if id in s.slots && call.DoRename? && !s.slots[id].broken
       && s.slots[id].w.tf.Some? && s.slots[id].w.tf.value in s.files
    then s.slots[id].w.dg else None
  }

  /** The contents published by an interleaving, in the order of the renames. */
  function Published(h: HashFn, s: Shared, calls: seq<(nat, Call)>): seq<Bytes>
    decreases |calls|
  {
    if calls == [] then []
    else
      var rest := Published(h, Perform(h, s, calls[0].0, calls[0].1), calls[1..]);
      match Publishes(s, calls[0].0, calls[0].1)
      case None => rest
      case Some(content) => [content] + rest
  }

  /** Any other call changes nothing that can be found. */
  lemma QuietCall(h: HashFn, s: Shared, id: nat, call: Call, stale: set<string>, d: Bytes)
    requires SharedOk(h, s, stale) && Publishes(s, id, call).None?
    ensures Lookup(Perform(h, s, id, call).files, d) == Lookup(s.files, d)
  {
    if call.DoCreate? && IsTemp(call.name) {
      TempIsNotCanonical(call.name, d);
    }
    if id in s.slots && s.slots[id].w.tf.Some? {
      assert Owns(s, id, s.slots[id].w.tf.value);
      TempIsNotCanonical(s.slots[id].w.tf.value, d);
    }
  }

  /** Over any interleaving of any writers, with failures, readers see the contents of the renames put into the
      store one after the other, and nothing else. */
  lemma {:induction false} PerformAllRefines(h: HashFn, s: Shared, calls: seq<(nat, Call)>, stale: set<string>, store: Basics.Store)
    requires SharedOk(h, s, stale) && Shows(Reading(s.files), store)
    ensures Shows(Reading(PerformAll(h, s, calls).files), PutAll(h, store, Published(h, s, calls)))
    decreases |calls|
  {
    if calls != [] {
      var (id, call) := calls[0];
      var t := Perform(h, s, id, call);
      PerformOk(h, s, id, call, stale);
      match Publishes(s, id, call)
      case None =>
        forall d
          ensures Lookup(t.files, d) == Lookup(s.files, d)
        {
          QuietCall(h, s, id, call, stale, d);
        }
        PerformAllRefines(h, t, calls[1..], stale, store);
      case Some(content) =>
        RenameOk(h, s, id, stale);
        PerformAllRefines(h, t, calls[1..], stale, store[h(content) := content]);
    }
  }

  /** Cleaning up takes the temporary file away, whatever happened to the writer before. */
  lemma CleanupRemoves(h: HashFn, s: Shared, id: nat, stale: set<string>)
    requires SharedOk(h, s, stale) && id in s.slots
    ensures
      var t := Perform(h, s, id, DoCleanup);
      && (forall name :: !Owns(t, id, name))
      && (forall name :: Owns(s, id, name) ==> t.files == s.files - {name})
      && (s.slots[id].w.tf.None? ==> t.files == s.files)
      && (forall i :: i != id ==> (i in t.slots <==> i in s.slots) && (i in t.slots ==> t.slots[i] == s.slots[i]))
  {
  }

  /** Once all writers have committed or cleaned up, the temporary files are the stale ones of before. */
  lemma OnlyStaleRemain(h: HashFn, s: Shared, calls: seq<(nat, Call)>, stale: set<string>)
    requires SharedOk(h, s, stale)
    requires var t := PerformAll(h, s, calls); forall id, name :: !Owns(t, id, name)
    ensures forall name :: name in PerformAll(h, s, calls).files && IsTemp(name) ==> name in stale
  {
    PerformAllOk(h, s, calls, stale);
  }

  // The methods of one writer, as sequences of calls.

  /** What the system does during one method call: the name it gives to a new temporary file, whether that
      works, how much of a failing write it keeps, and whether close, mkdir and rename all work. */
  datatype Env = Env(name: string, createOk: bool, kept: Option<nat>, finishOk: bool)

  ghost predicate Offered(v: View, p: Bytes, env: Env) {
    && (v.w.tf.None? ==> IsTemp(env.name) && env.name !in v.files)
    && (env.kept.Some? ==> env.kept.value <= |p|)
  }

  ghost predicate Open(v: View) {
    v.w.tf.Some? ==> v.w.tf.value in v.files && v.w.dg.Some?
  }

  function WriteCalls(v: View, env: Env, p: Bytes): seq<Call> {
    if v.w.tf.None? && !env.createOk then [CreateFails]
    else (if v.w.tf.None? then [DoCreate(env.name)] else []) + [DoAppend(p, env.kept)]
  }

  function Written(v: View, p: Bytes, env: Env): (r: (View, bool))
    requires Open(v) && Offered(v, p, env)
    ensures Open(r.0) && (r.1 ==> r.0.w.tf.Some?)
  {
    if v.w.tf.None? && !env.createOk then (View(v.w.(dg := Some([])), v.files), false)
    else (Append(if v.w.tf.None? then Create(v, env.name) else v, p, env.kept), env.kept.None?)
  }

  /** Committing writes the empty file when nothing was written, and fails when there is no file to close. */
  function Committed(h: HashFn, v: View, env: Env): (View, Option<Bytes>)
    requires Open(v) && Offered(v, [], env)
  {
    var (u, ok) := if v.w.size == 0 then Written(v, [], env) else (v, true);
    if ok then Finished(h, u, env.finishOk) else (u, None)
  }

  function Finished(h: HashFn, u: View, finishOk: bool): (View, Option<Bytes>)
    requires Open(u)
  {
    if u.w.tf.None? || !finishOk then (u, None) else (Rename(h, u), Some(h(u.w.dg.value)))
  }

  function FinishCalls(u: View, finishOk: bool): seq<Call> {
    if u.w.tf.None? then [] else if finishOk then [DoRename] else [RenameFails]
  }

  function CommitCalls(v: View, env: Env): seq<Call>
    requires Open(v) && Offered(v, [], env)
  {
    var (u, ok) := if v.w.size == 0 then Written(v, [], env) else (v, true);
    (if v.w.size == 0 then WriteCalls(v, env, []) else []) + (if ok then FinishCalls(u, env.finishOk) else [])
  }

  function For(id: nat, calls: seq<Call>): seq<(nat, Call)> {
    seq(|calls|, i requires 0 <= i < |calls| => (id, calls[i]))
  }

  lemma {:induction false} PerformAllAppend(h: HashFn, s: Shared, a: seq<(nat, Call)>, b: seq<(nat, Call)>)
    ensures PerformAll(h, s, a + b) == PerformAll(h, PerformAll(h, s, a), b)
    decreases |a|
  {
    if a == [] {
      assert a + b == b;
    } else {
      assert (a + b)[1..] == a[1..] + b;
      PerformAllAppend(h, Perform(h, s, a[0].0, a[0].1), a[1..], b);
    }
  }

  lemma PerformOne(h: HashFn, s: Shared, id: nat, call: Call)
    ensures PerformAll(h, s, For(id, [call])) == Perform(h, s, id, call)
  {
    assert For(id, [call])[1..] == [];
  }

  /** Write, seen by the other writers, is one or two system calls; what it does to file and digest is what
      they do. */
  lemma WriteIsCalls(h: HashFn, s: Shared, id: nat, p: Bytes, env: Env)
    requires id in s.slots && !s.slots[id].broken
    requires var v := View(s.slots[id].w, s.files); Open(v) && Offered(v, p, env)
    ensures
      var v := View(s.slots[id].w, s.files);
      var (u, ok) := Written(v, p, env);
      PerformAll(h, s, For(id, WriteCalls(v, env, p))) == Place(s, id, u, !ok)
  {
    var v := View(s.slots[id].w, s.files);
    if v.w.tf.None? && !env.createOk {
      PerformOne(h, s, id, CreateFails);
    } else if v.w.tf.None? {
      var t := Perform(h, s, id, DoCreate(env.name));
      assert For(id, WriteCalls(v, env, p)) == For(id, [DoCreate(env.name)]) + For(id, [DoAppend(p, env.kept)]);
      PerformAllAppend(h, s, For(id, [DoCreate(env.name)]), For(id, [DoAppend(p, env.kept)]));
      PerformOne(h, s, id, DoCreate(env.name));
      PerformOne(h, t, id, DoAppend(p, env.kept));
      assert t.slots[id := Slot(Written(v, p, env).0.w, env.kept.Some?)]
          == s.slots[id := Slot(Written(v, p, env).0.w, env.kept.Some?)];
    } else {
      assert WriteCalls(v, env, p) == [DoAppend(p, env.kept)];
      PerformOne(h, s, id, DoAppend(p, env.kept));
    }
  }

  lemma FinishIsCalls(h: HashFn, s: Shared, id: nat, finishOk: bool)
    requires id in s.slots && !s.slots[id].broken && Open(View(s.slots[id].w, s.files))
    ensures
      var u := View(s.slots[id].w, s.files);
      var (x, r) := Finished(h, u, finishOk);
      PerformAll(h, s, For(id, FinishCalls(u, finishOk))) == Place(s, id, x, r.None? && u.w.tf.Some?)
  {
    var u := View(s.slots[id].w, s.files);
    if u.w.tf.None? {
      assert s.slots[id := Slot(u.w, false)] == s.slots;
    } else if finishOk {
      PerformOne(h, s, id, DoRename);
    } else {
      PerformOne(h, s, id, RenameFails);
    }
  }

  /** Put adds a writer without a file, and touches neither directory nor other writers. */
  lemma PutIsCall(h: HashFn, s: Shared, id: nat)
    requires id !in s.slots
    ensures Perform(h, s, id, Put) == Shared(s.files, s.slots[id := Slot(Writer(None, None, 0), false)])
  {
  }

  /** Cleanup is one call, when unlink succeeds. */
  lemma CleanupIsCall(h: HashFn, s: Shared, id: nat)
    requires id in s.slots
    ensures Perform(h, s, id, DoCleanup) == Place(s, id, Unlink(View(s.slots[id].w, s.files), true), s.slots[id].broken)
  {
  }

  lemma CommitIsCalls(h: HashFn, s: Shared, id: nat, env: Env)
    requires id in s.slots && !s.slots[id].broken
    requires var v := View(s.slots[id].w, s.files); Open(v) && Offered(v, [], env)
    ensures
      var v := View(s.slots[id].w, s.files);
      var (x, r) := Committed(h, v, env);
      var t := PerformAll(h, s, For(id, CommitCalls(v, env)));
      id in t.slots && t == Place(s, id, x, t.slots[id].broken)
  {
    var v := View(s.slots[id].w, s.files);
    if v.w.size == 0 {
      WriteIsCalls(h, s, id, [], env);
      var (u, ok) := Written(v, [], env);
      var t := Place(s, id, u, !ok);
      if ok {
        assert For(id, CommitCalls(v, env)) == For(id, WriteCalls(v, env, [])) + For(id, FinishCalls(u, env.finishOk));
        PerformAllAppend(h, s, For(id, WriteCalls(v, env, [])), For(id, FinishCalls(u, env.finishOk)));
        FinishIsCalls(h, t, id, env.finishOk);
        PlaceTwice(s, id, u, !ok);
      } else {
        assert CommitCalls(v, env) == WriteCalls(v, env, []);
      }
    } else {
      assert CommitCalls(v, env) == FinishCalls(v, env.finishOk);
      FinishIsCalls(h, s, id, env.finishOk);
    }
  }

  lemma PlaceTwice(s: Shared, id: nat, u: View, broken: bool)
    ensures forall x, b :: Place(Place(s, id, u, broken), id, x, b) == Place(s, id, x, b)
  {
  }

  /** Why a caller must not commit after a failed write: the digest never saw the bytes that the file kept.
      Such a commit leaves the directory well-formed exactly when the hash cannot tell the difference. */
  lemma CommitAfterFailedWrite(h: HashFn, v: View, p: Bytes, kept: nat)
    requires Open(v) && v.w.tf.Some? && IsTemp(v.w.tf.value) && v.w.dg.value == v.files[v.w.tf.value] && kept <= |p|
    requires Canonical(h, v.files)
    ensures
      var data := v.files[v.w.tf.value];
      Canonical(h, Rename(h, Append(v, p, Some(kept))).files) <==> h(data + p[..kept]) == h(data)
  {
    var data := v.files[v.w.tf.value];
    var after := Rename(h, Append(v, p, Some(kept))).files;
    assert after[Resolve(h(data))] == data + p[..kept];
    forall d
      ensures v.w.tf.value != Resolve(d)
      ensures Resolve(d) == Resolve(h(data)) ==> d == h(data)
    {
      TempIsNotCanonical(v.w.tf.value, d);
      if Resolve(d) == Resolve(h(data)) {
        Hex.EncodeInjective(d, h(data));
      }
    }
  }

  /** What any commit leaves: the file, or an empty one, under its digest; or, when it fails, everything as it
      was but for the empty file that it may have created. */
  lemma CommitLeaves(h: HashFn, v: View, env: Env)
    requires Open(v) && Offered(v, [], env)
    ensures
      var (x, digest) := Committed(h, v, env);
      && (digest.Some? ==>
            && x.w.tf.None? && x.w.dg.None?
            && if v.w.tf.Some? then
                 && digest.value == h(v.w.dg.value)
                 && x.files == (v.files - {v.w.tf.value})[Hex.Encode(digest.value) := v.files[v.w.tf.value]]
               else
                 && digest.value == h([])
                 && x.files == (v.files[env.name := []] - {env.name})[Hex.Encode(digest.value) := []])
      && (digest.None? ==>
            x.files == v.files || (v.w.tf.None? && x.files == v.files[env.name := []] && x.w.tf == Some(env.name)))
  {
    if v.w.size == 0 && v.w.tf.Some? {
      var name := v.w.tf.value;
      assert v.w.dg.value + [] == v.w.dg.value && v.files[name] + [] == v.files[name];
      assert v.files[name := v.files[name]] == v.files;
    }
  }

  // The classes.

  class Directory {
    var files: Files
  }

  class ContentAddressableFile {
    const hash: HashFn
    const dir: Directory
    var mw: bool          // whether the multi-writer exists
    var tf: Option<string>
    var dg: Option<Bytes>
    var size: nat

    ghost predicate Valid()
      reads this, dir
    {
      (mw <==> tf.Some?) && Open(Now())
    }

    ghost function Now(): View
      reads this, dir
    {
      View(Writer(tf, dg, size), dir.files)
    }

    constructor (hash: HashFn, dir: Directory)
      ensures this.hash == hash && this.dir == dir
      ensures Valid() && Now() == View(FRESH, dir.files)
    {
      this.hash, this.dir, mw, tf, dg, size := hash, dir, false, None, None, 0;
    }

    method Write(p: Bytes, env: Env) returns (n: nat, ok: bool)
      requires Valid() && Offered(Now(), p, env)
      modifies this, dir
      ensures Valid()
      ensures (Now(), ok) == if p == [] then (old(Now()), true) else Written(old(Now()), p, env)
      ensures ok ==> n == |p|
      // No bytes, no effect; without a file, creating one may fail; else the file keeps all of the bytes, or
      // some of them, of which the digest then sees none.
      ensures p == [] ==> ok && Now() == old(Now())
      ensures p != [] && old(tf).None? && !env.createOk ==>
        !ok && n == 0 && tf.None? && size == old(size) && dir.files == old(dir.files)
      ensures p != [] && (old(tf).Some? || env.createOk) ==>
        var name := if old(tf).Some? then old(tf).value else env.name;
        var before := if old(tf).Some? then old(dir.files)[name] else [];
        var absorbed := if old(tf).Some? then old(dg).value else [];
        && tf == Some(name) && ok == env.kept.None? && size == old(size) + n
        && n == (if ok then |p| else env.kept.value)
        && dir.files == old(dir.files)[name := before + p[..n]]
        && dg == Some(if ok then absorbed + p else absorbed)
    {
      if p == [] {
        return 0, true;
      }
      n, ok := WriteAlways(p, env);
    }

    method WriteAlways(p: Bytes, env: Env) returns (n: nat, ok: bool)
      requires Valid() && Offered(Now(), p, env)
      modifies this, dir
      ensures Valid()
      ensures (Now(), ok) == Written(old(Now()), p, env)
      ensures old(tf).None? && !env.createOk ==>
        !ok && n == 0 && tf.None? && size == old(size) && dir.files == old(dir.files)
      ensures old(tf).Some? || env.createOk ==>
        var name := if old(tf).Some? then old(tf).value else env.name;
        var before := if old(tf).Some? then old(dir.files)[name] else [];
        var absorbed := if old(tf).Some? then old(dg).value else [];
        && tf == Some(name) && ok == env.kept.None? && size == old(size) + n
        && n == (if ok then |p| else env.kept.value)
        && dir.files == old(dir.files)[name := before + p[..n]]
        && dg == Some(if ok then absorbed + p else absorbed)
    {
      if !mw {
        dg := Some([]);
        if !env.createOk {
          return 0, false;
        }
        tf := Some(env.name);
        dir.files := dir.files[env.name := []];
        mw := true;
      }
      n := if env.kept.Some? then env.kept.value else |p|;
      assert p[..|p|] == p;
      ok := env.kept.None?;
      dir.files := dir.files[tf.value := dir.files[tf.value] + if ok then p else p[..n]];
      if ok {
        dg := Some(dg.value + p);
      }
      size := size + n;
    }

    method Commit(env: Env) returns (digest: Option<Bytes>)
      requires Valid() && Offered(Now(), [], env)
      modifies this, dir
      ensures Valid()
      ensures (Now(), digest) == Committed(hash, old(Now()), env)
      ensures digest.Some? <==>
        && env.finishOk && (old(size) > 0 ==> old(tf).Some?)
        && (old(size) == 0 ==> env.kept.None? && (old(tf).Some? || env.createOk))
      // The file, or an empty one, gets the name of its digest, and the writer is done.
      ensures digest.Some? ==>
        && tf.None? && dg.None?
        && if old(tf).Some? then
             && digest.value == hash(old(dg).value)
             && dir.files == (old(dir.files) - {old(tf).value})[Hex.Encode(digest.value) := old(dir.files)[old(tf).value]]
           else
             && digest.value == hash([])
             && dir.files == (old(dir.files)[env.name := []] - {env.name})[Hex.Encode(digest.value) := []]
      // A commit that fails leaves everything as it was, but for the empty file it may have created.
      ensures digest.None? ==>
        dir.files == old(dir.files) || (old(tf).None? && dir.files == old(dir.files)[env.name := []] && tf == Some(env.name))
    {
      CommitLeaves(hash, Now(), env);
      if size == 0 {
        var _, ok := WriteAlways([], env);
        if !ok {
          return None;
        }
      }
      if tf.None? || !env.finishOk {
        return None;
      }
      digest := Some(hash(dg.value));
      var content := dir.files[tf.value];
      dir.files := (dir.files - {tf.value})[Resolve(digest.value) := content];
      mw, tf, dg := false, None, None;
    }

    /** Never reports an error: the one it collects is overwritten on return. */
    method Cleanup(removed: bool) returns (ok: bool)
      requires Valid()
      modifies this, dir
      ensures Valid() && ok
      ensures Now() == Unlink(old(Now()), removed)
      ensures tf.None? && dg.None? && size == old(size)
      ensures old(tf).Some? && removed ==> dir.files == old(dir.files) - {old(tf).value}
      ensures old(tf).None? || !removed ==> dir.files == old(dir.files)
    {
      if tf.Some? {
        if removed {
          dir.files := dir.files - {tf.value};
        }
        tf := None;
      }
      mw, dg := false, None;
      ok := true;
    }
  }

  /** A writer that got the content without a failure, in a directory that was before. */
  ghost predicate Holds(v: View, before: Files, name: string, content: Bytes) {
    && v.w.size == |content|
    && (content == [] ==> v.w.tf.None? && v.files == before)
    && (content != [] ==> v.w.tf == Some(name) && v.w.dg == Some(content) && v.files == before[name := content])
  }

  lemma WriteHolds(v: View, before: Files, env: Env, content: Bytes, p: Bytes)
    requires Holds(v, before, env.name, content) && IsTemp(env.name) && env.name !in before
    requires env.createOk && env.kept.None? && p != []
    ensures Open(v) && Offered(v, p, env) && Holds(Written(v, p, env).0, before, env.name, content + p)
  {
    assert content == [] ==> content + p == p;
  }

  lemma CommitHolds(h: HashFn, v: View, before: Files, env: Env, content: Bytes)
    requires Holds(v, before, env.name, content) && IsTemp(env.name) && env.name !in before
    requires env.createOk && env.kept.None? && env.finishOk
    ensures Open(v) && Offered(v, [], env)
    ensures Committed(h, v, env)
         == (View(Writer(None, None, |content|), before[Resolve(h(content)) := content]), Some(h(content)))
  {
    TempIsNotCanonical(env.name, h(content));
    if content == [] {
      var u := Written(v, [], env).0;
      assert u == View(Writer(Some(env.name), Some([]), 0), before[env.name := []]);
    }
    assert before[env.name := content] - {env.name} == before;
  }

  /** io.Copy into a new writer, then Commit and Cleanup, with a system that does not fail: the digest of the
      whole content, readable under it; all other blobs as before; no temporary file left. */
  method StoreAll(hash: HashFn, dir: Directory, chunks: seq<Bytes>, name: string, ghost store: Basics.Store)
    returns (digest: Bytes)
    requires IsTemp(name) && name !in dir.files
    modifies dir
    ensures Puts(hash, Reading(old(dir.files)), chunks, digest, Reading(dir.files))
    ensures dir.files == old(dir.files)[Hex.Encode(hash(Concat(chunks))) := Concat(chunks)]
    ensures old(Shows(Reading(dir.files), store)) ==> Shows(Reading(dir.files), store[digest := Concat(chunks)])
    ensures dir.files.Keys == old(dir.files.Keys) + {Resolve(digest)}
  {
    var env := Env(name, true, None, true);
    var caf := new ContentAddressableFile(hash, dir);
    ghost var before := dir.files;
    for i := 0 to |chunks|
      invariant caf.dir == dir && caf.hash == hash && caf.Valid()
      invariant Holds(caf.Now(), before, name, Concat(chunks[..i]))
    {
      assert chunks[..i + 1] == chunks[..i] + [chunks[i]];
      ConcatSnoc(chunks[..i], chunks[i]);
      if chunks[i] != [] {
        WriteHolds(caf.Now(), before, env, Concat(chunks[..i]), chunks[i]);
      } else {
        assert Concat(chunks[..i]) + [] == Concat(chunks[..i]);
      }
      var _, _ := caf.Write(chunks[i], env);
    }
    assert chunks[..|chunks|] == chunks;
    CommitHolds(hash, caf.Now(), before, env, Concat(chunks));
    var r := caf.Commit(env);
    digest := r.value;
    forall d
      ensures Lookup(dir.files, d) == if d == digest then Some(Concat(chunks)) else Lookup(before, d)
    {
      if Resolve(d) == Resolve(digest) {
        Hex.EncodeInjective(d, digest);
      }
    }
    var _ := caf.Cleanup(true);
    if Shows(Reading(before), store) {
      PutsUpdates(hash, Reading(before), chunks, digest, Reading(dir.files), store);
    }
  }

  class Store {
    const hash: HashFn
    const writable: bool
    const dir: Directory

    constructor (hash: HashFn, writable: bool, dir: Directory)
      ensures this.hash == hash && this.writable == writable && this.dir == dir
    {
      this.hash, this.writable, this.dir := hash, writable, dir;
    }

    method Get(k: Bytes) returns (r: Option<Bytes>)
      ensures r == if Hex.Encode(k) in dir.files then Some(dir.files[Hex.Encode(k)]) else None
    {
      var path := Resolve(k);
      r := if path in dir.files then Some(dir.files[path]) else None;
    }

    method Exists(k: Bytes) returns (r: bool)
      ensures r <==> Hex.Encode(k) in dir.files
    {
      r := Resolve(k) in dir.files;
    }

    method Put() returns (caf: ContentAddressableFile?)
      ensures caf != null <==> writable
      ensures caf != null ==>
        fresh(caf) && caf.hash == hash && caf.dir == dir && caf.Valid() && caf.Now() == View(FRESH, dir.files)
    {
      if !writable {
        return null;
      }
      caf := new ContentAddressableFile(hash, dir);
    }

    /** Lists the directory, then removes, in its order, every name that is not kept; a failing removal stops
        it. A kept name is never removed, and success leaves exactly the kept ones. A directory that is missing
        is one without files. */
    method RemoveExcept(keep: set<string>, listOk: bool, removable: string -> bool) returns (ok: bool)
      modifies dir
      ensures !writable || !listOk ==> !ok && dir.files == old(dir.files)
      ensures forall name :: name in dir.files ==> name in old(dir.files) && dir.files[name] == old(dir.files)[name]
      ensures forall name :: name in old(dir.files) && name in keep ==> name in dir.files
      ensures ok <==> writable && listOk && forall name :: name in old(dir.files) && name !in keep ==> removable(name)
      ensures ok ==> dir.files.Keys == old(dir.files.Keys) * keep
    {
      if !writable {
        return false;
      }
      if !listOk {
        return false;
      }
      var rest := dir.files.Keys;
      while rest != {}
        invariant rest <= dir.files.Keys <= old(dir.files.Keys)
        invariant forall name :: name in dir.files ==> dir.files[name] == old(dir.files)[name]
        invariant forall name :: name in old(dir.files) && name in keep ==> name in dir.files
        invariant forall name :: name in dir.files && name !in rest ==> name in keep
        invariant forall name :: name in old(dir.files) && name !in keep && name !in rest ==> removable(name)
        decreases rest
      {
        var name :| name in rest;
        if name !in keep {
          if !removable(name) {
            return false;
          }
          dir.files := dir.files - {name};
        }
        rest := rest - {name};
      }
      return true;
    }
  }
}
