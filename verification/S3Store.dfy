/** The S3 store: content is spooled to a local file while it is hashed, then uploaded in one request. */
module S3Store {
  import opened Basics
  import Hex

  function KeyToName(prefix: string, k: Bytes): string {
    prefix + Hex.Encode(k)
  }

  function Lookup(objects: map<string, Bytes>, prefix: string, k: Bytes): Option<Bytes> {
    if KeyToName(prefix, k) in objects then Some(objects[KeyToName(prefix, k)]) else None
  }

  function Reading(objects: map<string, Bytes>, prefix: string): Reader {
    k => Lookup(objects, prefix, k)
  }

  lemma KeyToNameInjective(prefix: string, a: Bytes, b: Bytes)
    requires KeyToName(prefix, a) == KeyToName(prefix, b)
    ensures a == b
  {
    assert KeyToName(prefix, a)[|prefix|..] == Hex.Encode(a);
    assert KeyToName(prefix, b)[|prefix|..] == Hex.Encode(b);
    Hex.EncodeInjective(a, b);
  }

  class Bucket {
    var objects: map<string, Bytes>
  }

  class SpoolDir {
    var files: map<string, Bytes>
  }

  /** How the upload goes: seek, the request itself (a failed one may still have stored the object), and the
      removal of the spool file. */
  datatype Env = Env(seekOk: bool, putOk: bool, visible: bool, removeOk: bool)

  class TbUploaded {
    const hash: HashFn
    const prefix: string
    const bucket: Bucket
    const spool: SpoolDir
    var f: Option<string>   // the spool file; None when done
    var h: Bytes            // what the digest has absorbed

    ghost predicate Valid()
      reads this, spool
    {
      f.Some? ==> f.value in spool.files
    }

    /** Put: the spool file is created at once. */
    constructor (hash: HashFn, prefix: string, bucket: Bucket, spool: SpoolDir, name: string)
      requires name !in spool.files
      modifies spool
      ensures this.hash == hash && this.prefix == prefix && this.bucket == bucket && this.spool == spool
      ensures f == Some(name) && h == [] && spool.files == old(spool.files)[name := []]
    {
      this.hash, this.prefix, this.bucket, this.spool := hash, prefix, bucket, spool;
      f, h := Some(name), [];
      new;
      spool.files := spool.files[name := []];
    }

    /** As for the directory store, a failed write leaves file and digest apart. */
    method Write(p: Bytes, kept: Option<nat>) returns (n: nat, ok: bool)
      requires Valid() && (kept.Some? ==> kept.value <= |p|)
      modifies this`h, spool
      ensures Valid()
      ensures ok <==> f.Some? && kept.None?
      ensures ok ==> n == |p| && h == old(h) + p && spool.files == old(spool.files)[f.value := old(spool.files)[f.value] + p]
      ensures !ok ==> h == old(h)
      ensures f.None? ==> spool.files == old(spool.files)
      ensures f.Some? && kept.Some? ==>
        spool.files == old(spool.files)[f.value := old(spool.files)[f.value] + p[..kept.value]]
    {
      if f.None? {
        return 0, false;
      }
      if kept.Some? {
        spool.files := spool.files[f.value := spool.files[f.value] + p[..kept.value]];
        return kept.value, false;
      }
      spool.files := spool.files[f.value := spool.files[f.value] + p];
      h := h + p;
      return |p|, true;
    }

    /** A digest is returned only when the object is stored and the spool file is gone; an error may still
        leave the object behind, never any other. */
    method Commit(env: Env) returns (digest: Option<Bytes>)
      requires Valid()
      modifies this`f, spool, bucket
      ensures Valid()
      ensures digest.Some? <==> old(f).Some? && env.seekOk && env.putOk && env.removeOk
      ensures digest.Some? ==>
        && digest.value == hash(h) && f.None?
        && bucket.objects == old(bucket.objects)[prefix + Hex.Encode(hash(h)) := old(spool.files)[old(f).value]]
        && spool.files == old(spool.files) - {old(f).value}
      ensures digest.None? ==> f == old(f) && spool.files == old(spool.files)
      ensures digest.None? ==>
        bucket.objects == old(bucket.objects)
        || (f.Some? && bucket.objects == old(bucket.objects)[prefix + Hex.Encode(hash(h)) := spool.files[f.value]])
    {
      if f.None? || !env.seekOk {
        return None;
      }
      var k := hash(h);
      if env.putOk || env.visible {
        bucket.objects := bucket.objects[KeyToName(prefix, k) := spool.files[f.value]];
      }
      if !env.putOk {
        return None;
      }
      var ok := Cleanup(env.removeOk);
      if !ok {
        return None;
      }
      return Some(k);
    }

    method Cleanup(removeOk: bool) returns (ok: bool)
      requires Valid()
      modifies this`f, spool
      ensures Valid()
      ensures ok <==> old(f).None? || removeOk
      ensures ok ==> f.None?
      ensures spool.files == if old(f).Some? && removeOk then old(spool.files) - {old(f).value} else old(spool.files)
      ensures !ok ==> f == old(f)
    {
      if f.Some? {
        if !removeOk {
          return false;
        }
        spool.files := spool.files - {f.value};
        f := None;
      }
      return true;
    }
  }

  /** Put, io.Copy, Commit and Cleanup without a failure. */
  method StoreAll(hash: HashFn, prefix: string, bucket: Bucket, spool: SpoolDir, chunks: seq<Bytes>, name: string,
                  ghost store: Store)
    returns (digest: Bytes)
    requires name !in spool.files
    modifies bucket, spool
    ensures Puts(hash, Reading(old(bucket.objects), prefix), chunks, digest, Reading(bucket.objects, prefix))
    ensures bucket.objects == old(bucket.objects)[prefix + Hex.Encode(hash(Concat(chunks))) := Concat(chunks)]
    ensures old(Shows(Reading(bucket.objects, prefix), store)) ==> Shows(Reading(bucket.objects, prefix), store[digest := Concat(chunks)])
    ensures spool.files == old(spool.files)
  {
    ghost var before := bucket.objects;
    var t := new TbUploaded(hash, prefix, bucket, spool, name);
    for i := 0 to |chunks|
      invariant t.hash == hash && t.prefix == prefix && t.bucket == bucket && t.spool == spool
      invariant t.f == Some(name) && t.h == Concat(chunks[..i])
      invariant spool.files == old(spool.files)[name := Concat(chunks[..i])]
      invariant bucket.objects == old(bucket.objects)
    {
      assert chunks[..i + 1] == chunks[..i] + [chunks[i]];
      ConcatSnoc(chunks[..i], chunks[i]);
      var _, _ := t.Write(chunks[i], None);
    }
    assert chunks[..|chunks|] == chunks;
    var r := t.Commit(Env(true, true, true, true));
    digest := r.value;
    forall d
      ensures KeyToName(prefix, d) == KeyToName(prefix, digest) ==> d == digest
    {
      if KeyToName(prefix, d) == KeyToName(prefix, digest) {
        KeyToNameInjective(prefix, d, digest);
      }
    }
    var _ := t.Cleanup(true);
    if Shows(Reading(before, prefix), store) {
      PutsUpdates(hash, Reading(before, prefix), chunks, digest, Reading(bucket.objects, prefix), store);
    }
  }
}
