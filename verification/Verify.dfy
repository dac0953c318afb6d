/** htvend verify: one pass over the manifest against the store, then one over what was missing. */
module Verify {
  import opened Basics
  import opened Listener
  import opened LockFile
  import opened ListenerAlone
  import opened ListenerMethods
  import LockSpec
  import Hex

  // The tee chain.

  class Sink {
    var got: Bytes

    constructor ()
      ensures got == []
    {
      got := [];
    }
  }

  function Repeat(chunk: Bytes, n: nat): Bytes {
    if n == 0 then [] else Repeat(chunk, n - 1) + chunk
  }

  /** What a writer that occurs n times in the list receives. */
  function Spread(chunks: seq<Bytes>, n: nat): Bytes {
    if chunks == [] then [] else Spread(chunks[..|chunks| - 1], n) + Repeat(chunks[|chunks| - 1], n)
  }

  lemma {:induction false} SpreadOnce(chunks: seq<Bytes>)
    ensures Spread(chunks, 1) == Concat(chunks)
  {
    if chunks != [] {
      var n := |chunks| - 1;
      SpreadOnce(chunks[..n]);
      ConcatSnoc(chunks[..n], chunks[n]);
      assert chunks == chunks[..n] + [chunks[n]];
      assert Repeat(chunks[n], 1) == Repeat(chunks[n], 0) + chunks[n] == chunks[n];
    }
  }

  /** How often a writer is listed. */
  ghost function Times(order: seq<Sink>, w: Sink): nat {
    if order == [] then 0
    else Times(order[..|order| - 1], w) + if order[|order| - 1] == w then 1 else 0
  }

  lemma {:induction false} TimesCounts(order: seq<Sink>, w: Sink)
    ensures Times(order, w) == multiset(order)[w]
  {
    if order != [] {
      TimesCounts(order[..|order| - 1], w);
      assert order == order[..|order| - 1] + [order[|order| - 1]];
    }
  }

  /** One chunk down the chain: each reader first reads from the one it wraps, then writes to its own
      writer; io.Copy writes last. */
  method WriteAll(order: seq<Sink>, chunk: Bytes)
    modifies order
    ensures forall w :: w in order ==> w.got == old(w.got) + Repeat(chunk, Times(order, w))
  {
    if order != [] {
      var n := |order| - 1;
      var inner, last := order[..n], order[n];
      assert last !in inner ==> Times(inner, last) == 0 by {
        TimesCounts(inner, last);
      }
      WriteAll(inner, chunk);
      last.got := last.got + chunk;
    }
  }

  /** io.Copy down the chain. */
  method Pump(chunks: seq<Bytes>, order: seq<Sink>)
    modifies order
    ensures forall w :: w in order ==> w.got == old(w.got) + Spread(chunks, Times(order, w))
  {
    for i := 0 to |chunks|
      invariant forall w :: w in order ==> w.got == old(w.got) + Spread(chunks[..i], Times(order, w))
    {
      WriteAll(order, chunks[i]);
      assert chunks[..i + 1][..i] == chunks[..i];
    }
    assert chunks[..|chunks|] == chunks;
  }

  /** The order in which the chain reaches the writers: the tees, which wrap the reader one after the other,
      then the first writer, which io.Copy writes to. */
  method Chain(writers: seq<Sink>) returns (order: seq<Sink>)
    ensures multiset(order) == multiset(writers)
    ensures writers != [] ==> order == writers[1..] + [writers[0]]
  {
    var actual: Sink? := null;
    var tees: seq<Sink> := [];
    for i := 0 to |writers|
      invariant i == 0 ==> actual == null && tees == []
      invariant i > 0 ==> actual == writers[0] && tees == writers[1..i]
    {
      if actual == null {
        actual := writers[i];
      } else {
        tees := tees + [writers[i]];
      }
    }
    if actual == null {
      return [];
    }
    assert writers == [actual] + tees;
    order := tees + [actual];
  }

  /** Every writer, however often it is listed, gets the reader's full content that often; with no writer
      nothing is read, so nothing can fail. */
  method CopyToWriters(chunks: seq<Bytes>, readOk: bool, writers: seq<Sink>) returns (ok: bool)
    modifies writers
    ensures ok <==> writers == [] || readOk
    ensures forall w :: w in writers ==> w.got == old(w.got) + Spread(chunks, multiset(writers)[w])
    ensures forall w :: w in writers && multiset(writers)[w] == 1 ==> w.got == old(w.got) + Concat(chunks)
  {
    var order := Chain(writers);
    forall w
      ensures Times(order, w) == multiset(writers)[w]
      ensures w in order <==> w in writers
    {
      TimesCounts(order, w);
      assert w in order <==> w in multiset(order);
      assert w in writers <==> w in multiset(writers);
    }
    if order == [] {
      assert writers == [] by {
        assert |writers| == |multiset(writers)|;
      }
      return true;
    }
    SpreadOnce(chunks);
    Pump(chunks, order);
    ok := readOk;
  }

  const BUFFER: nat := 32 * 1024

  /** The reads of io.Copy. */
  function Cut(content: Bytes): seq<Bytes>
    decreases |content|
  {
    if |content| <= BUFFER then (if content == [] then [] else [content])
    else [content[..BUFFER]] + Cut(content[BUFFER..])
  }

  lemma SpreadCut(content: Bytes)
    ensures Spread(Cut(content), 1) == content
  {
    SpreadOnce(Cut(content));
    ConcatCut(content);
  }

  lemma {:induction false} ConcatCut(content: Bytes)
    ensures Concat(Cut(content)) == content
    decreases |content|
  {
    if |content| > BUFFER {
      ConcatCut(content[BUFFER..]);
      assert Cut(content)[1..] == Cut(content[BUFFER..]);
    } else if content != [] {
      assert Concat([content]) == content + Concat([]);
    }
  }

  // The first pass.

  /** Whether opening, reading and closing the blob of a URL work. */
  datatype IO = IO(getOk: bool, readOk: bool, closeOk: bool)

  datatype Verdict = Good | Absent | Differs | Unknown

  function Judge(hash: HashFn, blobs: Store, info: LockSpec.BlobInfo, io: IO, validate: bool): Verdict {
    match Hex.Decode(info.sha256)
    case None => Unknown
    case Some(d) =>
      if !io.getOk then Unknown
      else if d !in blobs then Absent
      else if (validate && !io.readOk) || !io.closeOk then Unknown
      else if validate && hash(blobs[d]) != d then Differs
      else Good
  }

  method CheckEntry(store: BlobStore, info: LockSpec.BlobInfo, io: IO, validate: bool) returns (r: Verdict)
    ensures r == Judge(store.hash, store.blobs, info, io, validate)
  {
    var d := Hex.Decode(info.sha256);
    if d.None? || !io.getOk {
      return Unknown;
    }
    if d.value !in store.blobs {
      return Absent;
    }
    var content := store.blobs[d.value];
    var h := new Sink();
    var writers := if validate then [h] else [];
    var copied := CopyToWriters(Cut(content), io.readOk, writers);
    if !copied || !io.closeOk {
      return Unknown;
    }
    if !validate {
      return Good;
    }
    assert multiset(writers)[h] == 1;
    SpreadCut(content);
    assert h.got == content;
    return if store.hash(h.got) != d.value then Differs else Good;
  }

  datatype Problem = MissingAsset(url: Url) | WrongHash(url: Url)

  datatype VerifyResult = Verified | Problems(list: seq<Problem>) | Aborted

  ghost predicate VerdictIs(hash: HashFn, blobs: Store, m: LockSpec.Manifest, io: Url -> IO, validate: bool, k: Url, v: Verdict) {
    k in m && Judge(hash, blobs, m[k], io(k), validate) == v
  }

  method Collect(assets: File, store: BlobStore, io: Url -> IO, validate: bool)
    returns (ok: bool, missing: seq<Url>, wrong: seq<Url>)
    ensures !ok <==> exists k :: VerdictIs(store.hash, store.blobs, assets.blobs.entries, io, validate, k, Unknown)
    ensures ok ==> forall k :: k in missing <==> VerdictIs(store.hash, store.blobs, assets.blobs.entries, io, validate, k, Absent)
    ensures ok ==> forall k :: k in wrong <==> VerdictIs(store.hash, store.blobs, assets.blobs.entries, io, validate, k, Differs)
  {
    var visited := assets.ForEach();
    missing, wrong := [], [];
    ghost var m := assets.blobs.entries;
    for i := 0 to |visited|
      invariant forall k :: k in missing ==> VerdictIs(store.hash, store.blobs, m, io, validate, k, Absent)
      invariant forall k :: k in wrong ==> VerdictIs(store.hash, store.blobs, m, io, validate, k, Differs)
      invariant forall j :: 0 <= j < i ==>
        var v := Judge(store.hash, store.blobs, visited[j].1, io(visited[j].0), validate);
        v != Unknown && (v == Absent ==> visited[j].0 in missing) && (v == Differs ==> visited[j].0 in wrong)
    {
      var (k, info) := visited[i];
      var v := CheckEntry(store, info, io(k), validate);
      assert VerdictIs(store.hash, store.blobs, m, io, validate, k, v);
      match v
      case Unknown => return false, [], [];
      case Absent => missing := missing + [k];
      case Differs => wrong := wrong + [k];
      case Good =>
    }
    forall k | k in m
      ensures
        var v := Judge(store.hash, store.blobs, m[k], io(k), validate);
        v != Unknown && (v == Absent ==> k in missing) && (v == Differs ==> k in wrong)
    {
      assert (k, m[k]) in visited;
    }
    ok := true;
  }

  // The second pass.

  /** k was missing, and the upstream gave an answer that is saved. */
  predicate Replaced(c: Config, upstream: Url -> Env, missing: seq<Url>, k: Url) {
    k in missing && Savable(c, k, upstream(k))
  }

  function After(c: Config, upstream: Url -> Env, missing: seq<Url>, m: LockSpec.Manifest): LockSpec.Manifest {
    map k | k in m :: if Replaced(c, upstream, missing, k) then InfoOf(c, upstream(k).answer.value) else m[k]
  }

  ghost predicate Delivers(c: Config, upstream: Url -> Env, missing: seq<Url>, k: Url, d: Bytes) {
    Replaced(c, upstream, missing, k) && c.hash(upstream(k).answer.value.body) == d
  }

  /** What fetching may do, even when it stops half way: the keys stay, entries that were not missing stay,
      without overwriting all entries stay, the blob of every new entry is there, and the store loses nothing
      and stays well-formed. */
  ghost predicate Framed(c: Config, missing: seq<Url>, m: LockSpec.Manifest, s: Store, m': LockSpec.Manifest, s': Store) {
    && m'.Keys == m.Keys
    && (forall k :: k in m && k !in missing ==> m'[k] == m[k])
    && (!c.lock.allowOverwrite ==> m' == m)
    && (forall k :: k in m && m'[k] != m[k] ==> Stored(s', m'[k].sha256))
    && (forall d :: d in s ==> d in s')
    && (WellFormed(c.hash, s) ==> WellFormed(c.hash, s'))
  }

  /** Every answer worth saving is in the manifest under its digest, and the store gained exactly those. */
  ghost predicate AllFetched(c: Config, upstream: Url -> Env, missing: seq<Url>,
                             m: LockSpec.Manifest, s: Store, m': LockSpec.Manifest, s': Store) {
    && m' == After(c, upstream, missing, m)
    && (forall d :: d in s' <==> d in s || exists k :: Delivers(c, upstream, missing, k, d))
  }

  /** Fetching k works, with the manifest as it was before the first fetch. */
  ghost predicate Works(c: Config, writable: bool, upstream: Url -> Env, lock: LockSpec.State, k: Url) {
    FetchWorks(c, Setting(upstream(k), writable, false), lock, k)
  }

  /** One fetch, even a failing one: nothing, or the answer's blob, or that and, when overwriting, its entry. */
  ghost predicate MayMove(c: Config, k: Url, env: Env, m1: LockSpec.Manifest, s1: Store, m2: LockSpec.Manifest, s2: Store) {
    || (m2 == m1 && s2 == s1)
    || (env.answer.Some?
        && s2 == s1[c.hash(env.answer.value.body) := env.answer.value.body]
        && (m2 == m1 || (c.lock.allowOverwrite && m2 == m1[k := InfoOf(c, env.answer.value)])))
  }

  /** One fetch that worked: blob and entry exactly for an answer that is saved. */
  ghost predicate Moved(c: Config, k: Url, env: Env, m1: LockSpec.Manifest, s1: Store, m2: LockSpec.Manifest, s2: Store) {
    if Savable(c, k, env) then
      m2 == m1[k := InfoOf(c, env.answer.value)] && s2 == s1[c.hash(env.answer.value.body) := env.answer.value.body]
    else m2 == m1 && s2 == s1
  }

  method FetchOne(c: Config, assets: File, store: BlobStore, k: Url, env: Env) returns (ok: bool)
    requires assets.options == c.lock && store.hash == c.hash && k in assets.blobs.entries
    modifies assets`dirty, assets.blobs, store
    ensures ok <==> FetchWorks(c, Setting(env, store.writable, false), old(assets.Abs()), k)
    ensures MayMove(c, k, env, old(assets.blobs.entries), old(store.blobs), assets.blobs.entries, store.blobs)
    ensures ok ==> Moved(c, k, env, old(assets.blobs.entries), old(store.blobs), assets.blobs.entries, store.blobs)
    ensures assets.dirty <==> old(assets.dirty) || assets.blobs.entries != old(assets.blobs.entries)
  {
    ghost var lock := assets.Abs();
    FetchEnds(c, Setting(env, store.writable, false), Here(assets, store, Requesting(k)));
    if Savable(c, k, env) {
      AddIsUpdate(c, lock, k, env);
    }
    ok := FetchAndSaveBlob(c, assets, store, k, env, null);
  }

  /** The fetch of the whole list works exactly when each fetch would work by itself: an earlier one never
      takes from a later one what it needs. */
  method FetchMissing(c: Config, assets: File, store: BlobStore, upstream: Url -> Env, missing: seq<Url>) returns (ok: bool)
    requires assets.options == c.lock && store.hash == c.hash
    requires forall k :: k in missing ==> k in assets.blobs.entries
    modifies assets`dirty, assets.blobs, store
    ensures Framed(c, missing, old(assets.blobs.entries), old(store.blobs), assets.blobs.entries, store.blobs)
    ensures ok <==> forall k :: k in missing ==> Works(c, store.writable, upstream, old(assets.Abs()), k)
    ensures ok ==> AllFetched(c, upstream, missing, old(assets.blobs.entries), old(store.blobs), assets.blobs.entries, store.blobs)
    ensures assets.dirty <==> old(assets.dirty) || assets.blobs.entries != old(assets.blobs.entries)
  {
    ghost var m, s, lock := assets.blobs.entries, store.blobs, assets.Abs();
    for i := 0 to |missing|
      invariant Framed(c, missing, m, s, assets.blobs.entries, store.blobs)
      invariant AllFetched(c, upstream, missing[..i], m, s, assets.blobs.entries, store.blobs)
      invariant forall k :: k in missing[..i] ==> Works(c, store.writable, upstream, lock, k)
      invariant assets.dirty <==> lock.dirty || assets.blobs.entries != m
    {
      var k := missing[i];
      ghost var lock1, m1, s1 := assets.Abs(), assets.blobs.entries, store.blobs;
      var fetched := FetchOne(c, assets, store, k, upstream(k));
      StepFramed(c, missing, k, m, s, m1, s1, assets.blobs.entries, store.blobs, upstream(k));
      StepWorks(c, store.writable, upstream, missing[..i], lock, lock1, k);
      StepDirty(c, upstream, missing[..i], k, m, m1, s1, assets.blobs.entries, store.blobs);
      if !fetched {
        return false;
      }
      assert missing[..i + 1] == missing[..i] + [k];
      StepFetched(c, upstream, missing[..i], k, m, s, m1, s1, assets.blobs.entries, store.blobs);
    }
    assert missing[..|missing|] == missing;
    ok := true;
  }

  /** Recording an answer either leaves the entries as they are or, when overwriting, replaces one. */
  lemma AddIsUpdate(c: Config, lock: LockSpec.State, k: Url, env: Env)
    requires Savable(c, k, env) && k in lock.blobs
    ensures
      var info := InfoOf(c, env.answer.value);
      var (lock', error) := LockSpec.AddBlob(c.lock, lock, k, info);
      && (lock'.blobs == lock.blobs || (c.lock.allowOverwrite && lock'.blobs == lock.blobs[k := info]))
      && (error.None? ==> lock'.blobs == lock.blobs[k := info])
      && (lock'.dirty <==> lock.dirty || lock'.blobs != lock.blobs)
  {
  }

  /** Whether a fetch works does not depend on the fetches that worked before it. */
  lemma StepWorks(c: Config, writable: bool, upstream: Url -> Env, done: seq<Url>,
                  lock: LockSpec.State, lock1: LockSpec.State, k: Url)
    requires lock1.blobs == After(c, upstream, done, lock.blobs) && k in lock.blobs
    requires forall k' :: k' in done ==> Works(c, writable, upstream, lock, k')
    ensures Works(c, writable, upstream, lock, k) <==> Works(c, writable, upstream, lock1, k)
  {
  }

  /** An entry that was replaced is not put back: the manifest differs from the first one as soon as, and as
      long as, one fetch has changed it. */
  lemma StepDirty(c: Config, upstream: Url -> Env, done: seq<Url>, k: Url, m: LockSpec.Manifest,
                  m1: LockSpec.Manifest, s1: Store, m2: LockSpec.Manifest, s2: Store)
    requires m1 == After(c, upstream, done, m) && k in m && MayMove(c, k, upstream(k), m1, s1, m2, s2)
    ensures m2 != m <==> m1 != m || m2 != m1
  {
  }

  lemma StepReplaced(c: Config, upstream: Url -> Env, done: seq<Url>, k: Url, more: seq<Url>)
    requires more == done + [k]
    ensures forall k' :: Replaced(c, upstream, more, k') <==>
      Replaced(c, upstream, done, k') || (k' == k && Savable(c, k, upstream(k)))
  {
  }

  lemma StepFramed(c: Config, missing: seq<Url>, k: Url, m: LockSpec.Manifest, s: Store,
                   m1: LockSpec.Manifest, s1: Store, m2: LockSpec.Manifest, s2: Store, env: Env)
    requires Framed(c, missing, m, s, m1, s1) && k in m && k in missing
    requires MayMove(c, k, env, m1, s1, m2, s2)
    ensures Framed(c, missing, m, s, m2, s2)
  {
    assert k in m1.Keys && m2.Keys == m.Keys;
    if env.answer.Some? {
      Hex.DecodeEncode(c.hash(env.answer.value.body));
    }
    forall k' | k' in m && m2[k'] != m[k']
      ensures Stored(s2, m2[k'].sha256)
    {
      assert m2[k'] == m1[k'] ==> Stored(s1, m1[k'].sha256);
    }
  }

  lemma StepFetched(c: Config, upstream: Url -> Env, missing: seq<Url>, k: Url,
                    m: LockSpec.Manifest, s: Store, m1: LockSpec.Manifest, s1: Store, m2: LockSpec.Manifest, s2: Store)
    requires k in m && AllFetched(c, upstream, missing, m, s, m1, s1)
    requires Moved(c, k, upstream(k), m1, s1, m2, s2)
    ensures AllFetched(c, upstream, missing + [k], m, s, m2, s2)
  {
    var more := missing + [k];
    StepReplaced(c, upstream, missing, k, more);
    assert m2 == After(c, upstream, more, m);
    forall d
      ensures d in s2 <==> d in s || exists k' :: Delivers(c, upstream, more, k', d)
    {
      if k' :| Delivers(c, upstream, missing, k', d) {
        assert Delivers(c, upstream, more, k', d);
      }
      if Delivers(c, upstream, more, k, d) {
        assert d in s2;
      }
      if d in s2 && d !in s1 {
        assert Delivers(c, upstream, more, k, d);
      }
      if k' :| Delivers(c, upstream, more, k', d) {
        assert k' == k || Delivers(c, upstream, missing, k', d);
      }
    }
  }

  /** Every entry's blob is there and hashes to the recorded digest. */
  ghost predicate Healthy(hash: HashFn, m: LockSpec.Manifest, s: Store) {
    forall k :: k in m ==>
      var d := Hex.Decode(m[k].sha256);
      d.Some? && d.value in s && hash(s[d.value]) == d.value
  }

  ghost predicate NoFaults(io: Url -> IO) {
    forall k :: io(k) == IO(true, true, true)
  }

  ghost predicate AnyUnknown(hash: HashFn, m: LockSpec.Manifest, s: Store, io: Url -> IO, validate: bool) {
    exists k :: VerdictIs(hash, s, m, io, validate, k, Unknown)
  }

  /** In plain terms: the first pass stops exactly when some digest is not hex, or opening its blob fails, or the
      blob is there and reading it (when it is validated) or closing it fails. */
  lemma UnknownExactly(hash: HashFn, m: LockSpec.Manifest, s: Store, io: Url -> IO, validate: bool)
    ensures AnyUnknown(hash, m, s, io, validate) <==>
      exists k :: k in m &&
        var d := Hex.Decode(m[k].sha256);
        || d.None? || !io(k).getOk
        || (d.value in s && ((validate && !io(k).readOk) || !io(k).closeOk))
  {
    forall k
      ensures VerdictIs(hash, s, m, io, validate, k, Unknown) <==>
        k in m &&
          var d := Hex.Decode(m[k].sha256);
          || d.None? || !io(k).getOk
          || (d.value in s && ((validate && !io(k).readOk) || !io(k).closeOk))
    {
    }
  }

  /** And when it does not stop, an entry is missing exactly when its blob is not there, and wrong exactly when
      the blob is there, is validated and hashes to something else. */
  lemma ListedExactly(hash: HashFn, m: LockSpec.Manifest, s: Store, io: Url -> IO, validate: bool, missing: seq<Url>, wrong: seq<Url>, k: Url)
    requires !AnyUnknown(hash, m, s, io, validate)
    requires Lists(hash, m, s, io, validate, Absent, missing) && Lists(hash, m, s, io, validate, Differs, wrong)
    ensures k !in m ==> k !in missing && k !in wrong
    ensures k in m ==>
      var d := Hex.Decode(m[k].sha256);
      && d.Some?
      && (k in missing <==> d.value !in s)
      && (k in wrong <==> d.value in s && validate && hash(s[d.value]) != d.value)
  {
    assert k in missing <==> VerdictIs(hash, s, m, io, validate, k, Absent);
    assert k in wrong <==> VerdictIs(hash, s, m, io, validate, k, Differs);
    assert !VerdictIs(hash, s, m, io, validate, k, Unknown);
  }

  ghost predicate Lists(hash: HashFn, m: LockSpec.Manifest, s: Store, io: Url -> IO, validate: bool, verdict: Verdict, keys: seq<Url>) {
    forall k :: k in keys <==> VerdictIs(hash, s, m, io, validate, k, verdict)
  }

  /** With working reads, the first pass finds nothing exactly when every blob is present and right. */
  lemma NothingFound(hash: HashFn, m: LockSpec.Manifest, s: Store, io: Url -> IO, missing: seq<Url>, wrong: seq<Url>)
    requires NoFaults(io)
    requires !AnyUnknown(hash, m, s, io, true) ==>
      Lists(hash, m, s, io, true, Absent, missing) && Lists(hash, m, s, io, true, Differs, wrong)
    ensures !AnyUnknown(hash, m, s, io, true) && missing == [] && wrong == [] <==> Healthy(hash, m, s)
  {
    if !AnyUnknown(hash, m, s, io, true) && missing == [] && wrong == [] {
      forall k | k in m
        ensures Judge(hash, s, m[k], io(k), true) == Good
      {
        assert !VerdictIs(hash, s, m, io, true, k, Unknown);
        assert !VerdictIs(hash, s, m, io, true, k, Absent);
        assert !VerdictIs(hash, s, m, io, true, k, Differs);
      }
    }
    if Healthy(hash, m, s) {
      assert !AnyUnknown(hash, m, s, io, true);
      forall k, v | VerdictIs(hash, s, m, io, true, k, v)
        ensures v == Good
      {
      }
      NoMembers(missing);
      NoMembers(wrong);
    }
  }

  lemma NoMembers(keys: seq<Url>)
    ensures (forall k :: k !in keys) ==> keys == []
  {
    if keys != [] {
      assert keys[0] in keys;
    }
  }

  /** After a fetch, every entry whose answer was saved is stored under the digest it now has; when entries
      cannot be overwritten that is the digest recorded before. */
  lemma FetchedIsStored(c: Config, upstream: Url -> Env, missing: seq<Url>,
                        m: LockSpec.Manifest, s: Store, m': LockSpec.Manifest, s': Store, k: Url)
    requires AllFetched(c, upstream, missing, m, s, m', s') && Framed(c, missing, m, s, m', s')
    requires k in m && Replaced(c, upstream, missing, k)
    ensures k in m' && Stored(s', m'[k].sha256)
    ensures !c.lock.allowOverwrite ==> m'[k] == m[k]
  {
    var d := c.hash(upstream(k).answer.value.body);
    Hex.DecodeEncode(d);
    assert Delivers(c, upstream, missing, k, d);
  }

  /** k's answer is saved, or somebody's answer is the content that k had recorded. */
  ghost predicate Obtained(c: Config, upstream: Url -> Env, missing: seq<Url>, m: LockSpec.Manifest, k: Url)
    requires k in m && Hex.Decode(m[k].sha256).Some?
  {
    Savable(c, k, upstream(k)) || exists k' :: Delivers(c, upstream, missing, k', Hex.Decode(m[k].sha256).value)
  }

  lemma FetchCoversEntry(c: Config, upstream: Url -> Env, missing: seq<Url>,
                         m: LockSpec.Manifest, s: Store, m': LockSpec.Manifest, s': Store, k: Url)
    requires AllFetched(c, upstream, missing, m, s, m', s') && Framed(c, missing, m, s, m', s')
    requires k in m && Hex.Decode(m[k].sha256).Some? && (k in missing <==> Hex.Decode(m[k].sha256).value !in s)
    ensures k in m' && (Stored(s', m'[k].sha256) <==> k !in missing || Obtained(c, upstream, missing, m, k))
  {
    if Replaced(c, upstream, missing, k) {
      FetchedIsStored(c, upstream, missing, m, s, m', s', k);
    } else {
      assert m'[k] == m[k];
    }
  }

  ghost predicate AllObtained(c: Config, upstream: Url -> Env, missing: seq<Url>, m: LockSpec.Manifest) {
    forall k :: k in missing ==> k in m && Hex.Decode(m[k].sha256).Some? && Obtained(c, upstream, missing, m, k)
  }

  /** A fetch that stops nowhere may still leave entries missing. The manifest is covered afterwards exactly
      when each missing entry's answer was one that is saved, or another entry's answer was its content. */
  lemma FetchCovers(c: Config, upstream: Url -> Env, io: Url -> IO, validate: bool, missing: seq<Url>,
                    m: LockSpec.Manifest, s: Store, m': LockSpec.Manifest, s': Store)
    requires !AnyUnknown(c.hash, m, s, io, validate) && Lists(c.hash, m, s, io, validate, Absent, missing)
    requires AllFetched(c, upstream, missing, m, s, m', s') && Framed(c, missing, m, s, m', s')
    ensures Covers(s', m') <==> AllObtained(c, upstream, missing, m)
  {
    forall k
      ensures CoveredIfObtained(c, upstream, missing, m, m', s', k)
    {
      ListedAbsent(c.hash, m, s, io, validate, missing, k);
      if k in m {
        FetchCoversEntry(c, upstream, missing, m, s, m', s', k);
      }
    }
    CoversByKeys(c, upstream, missing, m, m', s');
  }

  lemma CoversByKeys(c: Config, upstream: Url -> Env, missing: seq<Url>, m: LockSpec.Manifest, m': LockSpec.Manifest, s': Store)
    requires m'.Keys == m.Keys && forall k :: CoveredIfObtained(c, upstream, missing, m, m', s', k)
    ensures Covers(s', m') <==> AllObtained(c, upstream, missing, m)
  {
    if Covers(s', m') {
      forall k | k in missing
        ensures k in m && Hex.Decode(m[k].sha256).Some? && Obtained(c, upstream, missing, m, k)
      {
        assert CoveredIfObtained(c, upstream, missing, m, m', s', k);
      }
    }
    if AllObtained(c, upstream, missing, m) {
      forall k | k in m'
        ensures Stored(s', m'[k].sha256)
      {
        assert CoveredIfObtained(c, upstream, missing, m, m', s', k);
      }
    }
  }

  ghost predicate CoveredIfObtained(c: Config, upstream: Url -> Env, missing: seq<Url>,
                                    m: LockSpec.Manifest, m': LockSpec.Manifest, s': Store, k: Url) {
    && (k in missing ==> k in m)
    && (k in m ==>
          && Hex.Decode(m[k].sha256).Some? && k in m'
          && (Stored(s', m'[k].sha256) <==> k !in missing || Obtained(c, upstream, missing, m, k)))
  }

  lemma ListedAbsent(hash: HashFn, m: LockSpec.Manifest, s: Store, io: Url -> IO, validate: bool, missing: seq<Url>, k: Url)
    requires !AnyUnknown(hash, m, s, io, validate) && Lists(hash, m, s, io, validate, Absent, missing)
    ensures k in missing ==> k in m
    ensures k in m ==> Hex.Decode(m[k].sha256).Some? && (k in missing <==> Hex.Decode(m[k].sha256).value !in s)
  {
    assert k in missing <==> VerdictIs(hash, s, m, io, validate, k, Absent);
    assert !VerdictIs(hash, s, m, io, validate, k, Unknown);
  }

  method ReportMissing(missing: seq<Url>) returns (list: seq<Problem>)
    ensures |list| == |missing|
    ensures forall p :: p in list <==> p.MissingAsset? && p.url in missing
  {
    list := [];
    for i := 0 to |missing|
      invariant |list| == i
      invariant forall p :: p in list <==> p.MissingAsset? && p.url in missing[..i]
    {
      list := list + [MissingAsset(missing[i])];
    }
    assert missing[..|missing|] == missing;
  }

  method ReportWrong(first: seq<Problem>, wrong: seq<Url>) returns (list: seq<Problem>)
    ensures |list| == |first| + |wrong|
    ensures forall p :: p in list <==> p in first || (p.WrongHash? && p.url in wrong)
  {
    list := first;
    for i := 0 to |wrong|
      invariant |list| == |first| + i
      invariant forall p :: p in list <==> p in first || (p.WrongHash? && p.url in wrong[..i])
    {
      list := list + [WrongHash(wrong[i])];
    }
    assert wrong[..|wrong|] == wrong;
  }

  /** doValidate. c carries failIfMissing and fetchIfMissing; the answers of the upstream and of the disk are
      parameters, one per URL. missing and wrong are the two lists of the first pass. */
  method DoValidate(c: Config, assets: File, store: BlobStore, upstream: Url -> Env, io: Url -> IO, validate: bool)
    returns (r: VerifyResult, ghost missing: seq<Url>, ghost wrong: seq<Url>)
    requires assets.options == c.lock && store.hash == c.hash
    modifies assets`dirty, assets.blobs, store
    // The lists are exact, and any failing read or unreadable digest aborts before anything is fetched.
    ensures AnyUnknown(c.hash, old(assets.blobs.entries), old(store.blobs), io, validate) ==>
      r.Aborted? && assets.Abs() == old(assets.Abs()) && store.blobs == old(store.blobs)
    ensures !AnyUnknown(c.hash, old(assets.blobs.entries), old(store.blobs), io, validate) ==>
      && Lists(c.hash, old(assets.blobs.entries), old(store.blobs), io, validate, Absent, missing)
      && Lists(c.hash, old(assets.blobs.entries), old(store.blobs), io, validate, Differs, wrong)
    // Whatever happens, only missing entries can change, each new one has its blob, and nothing is lost.
    ensures Framed(c, missing, old(assets.blobs.entries), old(store.blobs), assets.blobs.entries, store.blobs)
    ensures assets.dirty <==> old(assets.dirty) || assets.blobs.entries != old(assets.blobs.entries)
    // Plain verify changes nothing and reports exactly the two lists.
    ensures c.failIfMissing ==>
      && assets.Abs() == old(assets.Abs()) && store.blobs == old(store.blobs)
      && (!AnyUnknown(c.hash, old(assets.blobs.entries), old(store.blobs), io, validate) ==>
           && !r.Aborted? && (r.Verified? <==> missing == [] && wrong == [])
           && (r.Problems? ==> forall k ::
                (MissingAsset(k) in r.list <==> k in missing) && (WrongHash(k) in r.list <==> k in wrong)))
    ensures c.failIfMissing && validate && NoFaults(io) ==>
      (r.Verified? <==> Healthy(c.hash, old(assets.blobs.entries), old(store.blobs)))
    // Fetching stops exactly when some fetch does not work.
    ensures Fetching(c) && !AnyUnknown(c.hash, old(assets.blobs.entries), old(store.blobs), io, validate) ==>
      (!r.Aborted? <==> forall k :: k in missing ==> Works(c, store.writable, upstream, old(assets.Abs()), k))
    // When it did not stop it saved every answer that is saved, but the manifest is covered only when that
    // was enough; wrong hashes are still reported.
    ensures Fetching(c) && !r.Aborted? ==>
      && AllFetched(c, upstream, missing, old(assets.blobs.entries), old(store.blobs), assets.blobs.entries, store.blobs)
      && (Covers(store.blobs, assets.blobs.entries) <==> AllObtained(c, upstream, missing, old(assets.blobs.entries)))
      && (r.Verified? <==> wrong == [])
      && (r.Problems? ==> forall p :: p in r.list <==> p.WrongHash? && p.url in wrong)
    // With a store opened read-only, as for repair without fetch, it stops exactly at an answer worth saving
    // (or when there is none, or its body cannot be closed).
    ensures Fetching(c) && !store.writable && !AnyUnknown(c.hash, old(assets.blobs.entries), old(store.blobs), io, validate) ==>
      (!r.Aborted? <==> forall k :: k in missing ==> upstream(k).answer.Some? && !Savable(c, k, upstream(k)) && upstream(k).closeOk)
  {
    ghost var m, s := assets.blobs.entries, store.blobs;
    var collected, missingList, wrongList := Collect(assets, store, io, validate);
    missing, wrong := missingList, wrongList;
    if validate && NoFaults(io) {
      NothingFound(c.hash, m, s, io, missing, wrong);
    }
    if !collected {
      return Aborted, missing, wrong;
    }
    var list: seq<Problem> := [];
    if c.failIfMissing {
      list := ReportMissing(missingList);
    } else if c.fetchIfMissing {
      var fetched := FetchMissing(c, assets, store, upstream, missingList);
      if !fetched {
        return Aborted, missing, wrong;
      }
      FetchCovers(c, upstream, io, validate, missing, m, s, assets.blobs.entries, store.blobs);
    }
    list := ReportWrong(list, wrongList);
    r := if list == [] then Verified else Problems(list);
  }

  predicate Fetching(c: Config) {
    !c.failIfMissing && c.fetchIfMissing
  }

  // The command.

  /** Nothing is wrong with the entry itself: its digest is hex, opening its blob works or reports that it is
      missing, and if it is there it can be read and closed and hashes to the digest. */
  ghost predicate Sane(hash: HashFn, s: Store, info: LockSpec.BlobInfo, io: IO) {
    var d := Hex.Decode(info.sha256);
    && d.Some? && io.getOk
    && (d.value in s ==> io.readOk && io.closeOk && hash(s[d.value]) == d.value)
  }

  /** What the first pass finds, in those terms. */
  lemma FirstPass(hash: HashFn, m: LockSpec.Manifest, s: Store, io: Url -> IO, missing: seq<Url>, wrong: seq<Url>)
    requires !AnyUnknown(hash, m, s, io, true) ==>
      Lists(hash, m, s, io, true, Absent, missing) && Lists(hash, m, s, io, true, Differs, wrong)
    ensures !AnyUnknown(hash, m, s, io, true) && wrong == [] <==> forall k :: k in m ==> Sane(hash, s, m[k], io(k))
    ensures !AnyUnknown(hash, m, s, io, true) ==> forall k :: k in missing <==> k in m && !Stored(s, m[k].sha256)
  {
    UnknownExactly(hash, m, s, io, true);
    if !AnyUnknown(hash, m, s, io, true) {
      forall k
        ensures k in missing <==> k in m && !Stored(s, m[k].sha256)
        ensures k in wrong <==> k in m && !Sane(hash, s, m[k], io(k))
      {
        ListedExactly(hash, m, s, io, true, missing, wrong, k);
      }
      NoMembers(wrong);
    }
  }

  /** Whether the entry's blob is missing. */
  ghost predicate Lacks(m: LockSpec.Manifest, s: Store, k: Url) {
    k in m && !Stored(s, m[k].sha256)
  }

  /** The validation that the command asks for: it either fails on missing entries or fetches them. */
  method ValidateAll(c: Config, assets: File, store: BlobStore, upstream: Url -> Env, io: Url -> IO)
    returns (r: VerifyResult, ghost missing: seq<Url>)
    requires assets.options == c.lock && store.hash == c.hash && c.fetchIfMissing == !c.failIfMissing
    modifies assets`dirty, assets.blobs, store
    ensures Framed(c, missing, old(assets.blobs.entries), old(store.blobs), assets.blobs.entries, store.blobs)
    ensures assets.dirty <==> old(assets.dirty) || assets.blobs.entries != old(assets.blobs.entries)
    ensures c.failIfMissing ==> store.blobs == old(store.blobs) && assets.blobs.entries == old(assets.blobs.entries)
    ensures r.Verified? <==>
      && (forall k :: k in old(assets.blobs.entries) ==> Sane(c.hash, old(store.blobs), old(assets.blobs.entries)[k], io(k)))
      && (forall k :: Lacks(old(assets.blobs.entries), old(store.blobs), k) ==>
            c.fetchIfMissing && FetchWorks(c, Setting(upstream(k), store.writable, false), old(assets.Abs()), k))
    ensures r.Verified? ==> forall k :: k in missing <==> Lacks(old(assets.blobs.entries), old(store.blobs), k)
    ensures r.Verified? && c.fetchIfMissing ==>
      && assets.blobs.entries == After(c, upstream, missing, old(assets.blobs.entries))
      && (Covers(store.blobs, assets.blobs.entries) <==> AllObtained(c, upstream, missing, old(assets.blobs.entries)))
  {
    ghost var m, s, lock, wrong := assets.blobs.entries, store.blobs, assets.Abs(), [];
    r, missing, wrong := DoValidate(c, assets, store, upstream, io, true);
    FirstPass(c.hash, m, s, io, missing, wrong);
    NoMembers(missing);
    if !AnyUnknown(c.hash, m, s, io, true) {
      assert forall k :: k in missing <==> Lacks(m, s, k);
      if c.failIfMissing {
        assert missing == [] <==> forall k :: !Lacks(m, s, k);
      } else {
        assert forall k :: k in missing ==>
          (Works(c, store.writable, upstream, lock, k) <==> FetchWorks(c, Setting(upstream(k), store.writable, false), lock, k));
      }
    } else {
      assert !r.Verified?;
    }
  }

  /** The manifest is opened, verified against the store, and closed; w is how a final write goes. m is the
      manifest found and m' the one left in memory. Fetch alone opens the store for writing; whether that makes
      a difference is up to the store. */
  method Execute(c: Config, disk: Disk, store: BlobStore, fetch: bool, repair: bool,
                 upstream: Url -> Env, io: Url -> IO, w: LockSpec.WriteOutcome)
    returns (ok: bool, ghost missing: seq<Url>, ghost m: LockSpec.Manifest, ghost m': LockSpec.Manifest)
    requires store.hash == c.hash && (fetch ==> store.writable)
    modifies disk, store
    ensures
      var flags := c.(lock := LockSpec.Options(repair, repair, c.lock.noCache),
                      fetchIfMissing := fetch || repair, failIfMissing := !fetch && !repair);
      var loaded := LockSpec.Load(c.codec, flags.lock, old(disk.text));
      if loaded.None? then
        !ok && disk.text == old(disk.text) && store.blobs == old(store.blobs)
      else
        && m == loaded.value.blobs
        && Framed(flags, missing, m, old(store.blobs), m', store.blobs)
        // What is on disk afterwards, error or not.
        && (!repair ==> m' == m && disk.text == old(disk.text))
        && (!fetch && !repair ==> store.blobs == old(store.blobs))
        && ((repair && (loaded.value.dirty || m' != m) ==> w.Written?) && LockSpec.Lawful(c.codec) ==>
              disk.text.Some? && c.codec.unmarshal(disk.text.value) == Some(m'))
        // Exactly when it reports no error.
        && (ok <==>
              && (forall k :: k in m ==> Sane(c.hash, old(store.blobs), m[k], io(k)))
              && (forall k :: Lacks(m, old(store.blobs), k) ==>
                    && (fetch || repair)
                    && FetchWorks(flags, Setting(upstream(k), store.writable, false), loaded.value, k))
              && (repair && (loaded.value.dirty || m' != m) ==> w.Written?))
        // And what that then means for a fetch or repair: the entries, and whether the store covers them.
        && (ok ==> forall k :: k in missing <==> Lacks(m, old(store.blobs), k))
        && (ok && (fetch || repair) ==>
              && m' == After(flags, upstream, missing, m)
              && (Covers(store.blobs, m') <==> AllObtained(flags, upstream, missing, m)))
  {
    var flags := c.(lock := LockSpec.Options(repair, repair, c.lock.noCache),
                    fetchIfMissing := fetch || repair, failIfMissing := !fetch && !repair);
    var mf := File.NewMapFile(c.codec, flags.lock, disk);
    missing, m, m' := [], map[], map[];
    if mf == null {
      return false, missing, m, m';
    }
    m := mf.blobs.entries;
    var r;
    r, missing := ValidateAll(flags, mf, store, upstream, io);
    m' := mf.blobs.entries;
    var e := mf.Close(w);
    ok := r.Verified? && e.None?;
  }

  // Two runs of the command on a manifest with one entry whose blob is missing.

  const LONELY: LockSpec.Manifest := map["http://a/" := LockSpec.BlobInfo("00", map[])]

  lemma LonelyPass(hash: HashFn, io: IO)
    requires io == IO(true, true, true)
    ensures Sane(hash, map[], LONELY["http://a/"], io)
    ensures forall k :: Lacks(LONELY, map[], k) <==> k == "http://a/"
  {
    assert Hex.Decode("00").Some?;
  }

  method Lonely(c: Config, fetch: bool, repair: bool, env: Env) returns (ok: bool, blobs: Store, ghost m': LockSpec.Manifest)
    requires LockSpec.Lawful(c.codec) && (fetch || repair)
    ensures
      var lock := LockSpec.Options(repair, repair, c.lock.noCache);
      var flags := c.(lock := lock, fetchIfMissing := true, failIfMissing := false);
      && (ok <==> FetchWorks(flags, Setting(env, fetch, false), LockSpec.State(LONELY, map[], false), "http://a/"))
      && (!repair ==> m' == LONELY)
      && (ok ==> (Covers(blobs, m') ==> Savable(flags, "http://a/", env)))
  {
    var disk := new Disk(Some(c.codec.marshal(LONELY)));
    var store := new BlobStore(c.hash, fetch, map[]);
    var io := _ => IO(true, true, true);
    var upstream := _ => env;
    ghost var missing, m;
    LonelyPass(c.hash, io("http://a/"));
    ok, missing, m, m' := Execute(c, disk, store, fetch, repair, upstream, io, LockSpec.Written);
    blobs := store.blobs;
    if ok && Covers(blobs, m') {
      assert "http://a/" in missing;
    }
  }

  /** A fetch that reports no error and leaves a gap: the only entry is missing and its URL answers 404. */
  method FetchCanLeaveGap(c: Config, env: Env) returns (ok: bool, blobs: Store, ghost m: LockSpec.Manifest)
    requires LockSpec.Lawful(c.codec) && env.answer == Some(Reply(404, map[], [])) && env.closeOk
    ensures ok && m == LONELY && !Covers(blobs, m)
  {
    ok, blobs, m := Lonely(c, true, false, env);
  }

  /** A repair that works together with fetch and, on a store that heeds how it was opened, stops without it:
      the entry is missing, and its URL answers with something that can be saved. */
  method RepairAloneStops(c: Config, env: Env) returns (withFetch: bool, alone: bool)
    requires LockSpec.Lawful(c.codec) && !c.lock.noCache("http://a/")
    requires env.answer == Some(Reply(OK, map[], [])) && FaultFree(Setting(env, true, false))
    ensures withFetch && !alone
  {
    ghost var m;
    var blobs;
    var lock := LockSpec.Options(true, true, c.lock.noCache);
    FetchWithoutFaults(c.(lock := lock, fetchIfMissing := true, failIfMissing := false), Setting(env, true, false), LockSpec.State(LONELY, map[], false), "http://a/");
    withFetch, blobs, m := Lonely(c, true, true, env);
    alone, blobs, m := Lonely(c, false, true, env);
  }
}
