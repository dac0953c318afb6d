/** The registry store: a blob uploaded in chunks with explicit positions, against a server that keeps what
    it has been given. */
module RegistryStore {
  import opened Basics

  /** First and last position of one accepted chunk, as Content-Range states them. */
  datatype Range = Range(first: int, last: int)

  /** An upload in progress, with the ranges that the server has accepted for it. */
  datatype Upload = Upload(held: Bytes, ranges: seq<Range>)

  /** Where the i-th range has to begin. */
  function Begin(ranges: seq<Range>, i: nat): int
    requires i <= |ranges|
  {
    if i == 0 then 0 else ranges[i - 1].last + 1
  }

  /** The ranges start at 0, each begins where the one before ended, none is empty, and together they end
      just before total (section 14.4 of RFC 9110 numbers positions from 0, last one included). */
  ghost predicate Tiles(ranges: seq<Range>, total: int) {
    && (forall i :: 0 <= i < |ranges| ==> ranges[i].first <= ranges[i].last)
    && (forall i {:trigger Begin(ranges, i)} :: 0 <= i < |ranges| ==> ranges[i].first == Begin(ranges, i))
    && total == Begin(ranges, |ranges|)
  }

  ghost predicate InRange(r: Range, p: int) {
    r.first <= p <= r.last
  }

  lemma {:induction false} TilesCover(ranges: seq<Range>, total: int, p: int)
    requires Tiles(ranges, total)
    ensures 0 <= p < total <==> exists i :: 0 <= i < |ranges| && InRange(ranges[i], p)
    decreases |ranges|
  {
    if ranges != [] {
      var init, last := ranges[..|ranges| - 1], ranges[|ranges| - 1];
      TilesInit(ranges, |ranges| - 1);
      TilesCover(init, last.first, p);
      TilesStart(ranges, total);
      if 0 <= p < last.first {
        var i :| 0 <= i < |init| && InRange(init[i], p);
        assert InRange(ranges[i], p);
      } else if last.first <= p < total {
        assert InRange(ranges[|ranges| - 1], p);
      }
      if i :| 0 <= i < |ranges| && InRange(ranges[i], p) {
        assert i < |init| ==> InRange(init[i], p);
      }
    }
  }

  lemma TilesAppend(ranges: seq<Range>, total: int, r: Range)
    requires Tiles(ranges, total) && total == r.first <= r.last
    ensures Tiles(ranges + [r], r.last + 1)
  {
    var all := ranges + [r];
    forall i | 0 <= i < |all|
      ensures all[i].first == Begin(all, i)
    {
      assert i < |ranges| ==> ranges[i].first == Begin(ranges, i);
      assert all[i].first == if i == 0 then 0 else all[i - 1].last + 1;
    }
  }

  lemma TilesInit(ranges: seq<Range>, n: nat)
    requires n < |ranges| && forall i :: 0 <= i < |ranges| ==> ranges[i].first <= ranges[i].last
    requires forall i {:trigger Begin(ranges, i)} :: 0 <= i < |ranges| ==> ranges[i].first == Begin(ranges, i)
    ensures Tiles(ranges[..n], ranges[n].first)
  {
    assert ranges[n].first == Begin(ranges, n) == Begin(ranges[..n], n);
    forall i | 0 <= i < n
      ensures ranges[..n][i].first == Begin(ranges[..n], i)
    {
      assert ranges[i].first == Begin(ranges, i);
    }
  }

  lemma {:induction false} TilesStart(ranges: seq<Range>, total: int)
    requires Tiles(ranges, total)
    ensures total >= 0 && forall i :: 0 <= i < |ranges| ==> 0 <= ranges[i].first <= ranges[i].last < total
    decreases |ranges|
  {
    if ranges != [] {
      var n := |ranges| - 1;
      TilesInit(ranges, n);
      TilesStart(ranges[..n], ranges[n].first);
      forall i | 0 <= i < n
        ensures 0 <= ranges[i].first <= ranges[i].last < ranges[n].first
      {
        assert ranges[..n][i] == ranges[i];
      }
    }
  }

  /** The ranges tile the content: every position below the total, and no other, is in exactly one of them. */
  lemma TilesExactly(ranges: seq<Range>, total: int, p: int)
    requires Tiles(ranges, total)
    ensures 0 <= p < total <==> exists i :: 0 <= i < |ranges| && InRange(ranges[i], p)
    ensures forall i, j :: 0 <= i < j < |ranges| ==> !(InRange(ranges[i], p) && InRange(ranges[j], p))
  {
    TilesCover(ranges, total, p);
    forall i, j | 0 <= i < j < |ranges|
      ensures ranges[i].last < ranges[j].first
    {
      TilesInit(ranges, j);
      TilesStart(ranges[..j], ranges[j].first);
      assert ranges[..j][i] == ranges[i];
    }
  }

  /** Statuses the client looks at. */
  datatype Status = Accepted | Created | NoContent | Refused

  class Server {
    const hash: HashFn
    var uploads: map<string, Upload>
    var blobs: map<Bytes, Bytes>

    method Post(location: string)
      requires location !in uploads
      modifies this`uploads
      ensures uploads == old(uploads)[location := Upload([], [])]
    {
      uploads := uploads[location := Upload([], [])];
    }

    /** Accepts a chunk only when its first position is the number of bytes held so far and its length is the
        one that the range declares; the upload then goes on at a new location. */
    method Patch(location: string, range: Range, data: Bytes, next: string) returns (status: Status)
      requires next == location || next !in uploads
      modifies this`uploads
      ensures status.Accepted? <==>
        location in old(uploads) && range.first == |old(uploads)[location].held| && range.last == range.first + |data| - 1
      ensures status.Accepted? ==>
        var u := old(uploads)[location];
        uploads == (old(uploads) - {location})[next := Upload(u.held + data, u.ranges + [range])]
      ensures !status.Accepted? ==> uploads == old(uploads)
    {
      if location !in uploads {
        return Refused;
      }
      var u := uploads[location];
      if range.first != |u.held| || range.last != range.first + |data| - 1 {
        return Refused;
      }
      uploads := (uploads - {location})[next := Upload(u.held + data, u.ranges + [range])];
      return Accepted;
    }

    /** Creates the blob only when the digest is that of the bytes held. */
    method PutDigest(location: string, digest: Bytes) returns (status: Status)
      modifies this
      ensures status.Created? <==> location in old(uploads) && hash(old(uploads)[location].held) == digest
      ensures status.Created? ==>
        uploads == old(uploads) - {location} && blobs == old(blobs)[digest := old(uploads)[location].held]
      ensures !status.Created? ==> uploads == old(uploads) && blobs == old(blobs)
    {
      if location !in uploads || hash(uploads[location].held) != digest {
        return Refused;
      }
      blobs := blobs[digest := uploads[location].held];
      uploads := uploads - {location};
      return Created;
    }

    method Delete(location: string) returns (status: Status)
      modifies this`uploads
      ensures uploads == old(uploads) - {location}
      ensures status == if location in old(uploads) then NoContent else Refused
    {
      status := if location in uploads then NoContent else Refused;
      uploads := uploads - {location};
    }
  }

  /** A request gets through, or is lost after the transport has read some of its body, before or after the
      server acted on it. */
  datatype Net = Delivered | Lost(read: nat, acted: bool)

  class BlobBeingUploaded {
    const server: Server
    var url: string
    var digest: Option<Bytes>   // what the digest has absorbed; None when done
    var bw: nat

    /** What a successful sequence of writes keeps: server and client agree on every byte. */
    ghost predicate InStep()
      reads this, server
    {
      && digest.Some? && url in server.uploads
      && server.uploads[url].held == digest.value
      && bw == |digest.value|
      && Tiles(server.uploads[url].ranges, bw)
    }

    constructor (server: Server, url: string)
      ensures this.server == server && this.url == url && digest == Some([]) && bw == 0
    {
      this.server, this.url, digest, bw := server, url, Some([]), 0;
    }

    /** Every write that is not lost is accepted, and keeps client and server in step. */
    method Write(p: Bytes, next: string, net: Net) returns (n: nat, ok: bool)
      requires InStep() && (next == url || next !in server.uploads)
      requires net.Lost? ==> net.read <= |p|
      modifies this, server`uploads
      ensures ok <==> p == [] || net.Delivered?
      ensures ok ==> InStep() && n == |p| && digest == Some(old(digest).value + p)
      ensures p == [] ==> url == old(url) && server.uploads == old(server.uploads)
      ensures !ok ==> url == old(url) && bw == old(bw)
      ensures server.uploads - {old(url), next} == old(server.uploads) - {old(url), next}
      ensures ok && p != [] ==>
        && url == next
        && server.uploads == (old(server.uploads) - {old(url)})[next := Upload(
             old(server.uploads)[old(url)].held + p,
             old(server.uploads)[old(url)].ranges + [Range(old(bw), old(bw) + |p| - 1)])]
    {
      n := 0;
      if p == [] {
        assert digest.value + p == digest.value;
        return 0, true;
      }
      var range := Range(bw, bw + |p| - 1);
      if net.Lost? {
        digest := Some(digest.value + p[..net.read]);
        if net.acted {
          var _ := server.Patch(url, range, p, next);
        }
        return 0, false;
      }
      digest := Some(digest.value + p);
      ghost var ranges := server.uploads[url].ranges;
      var status := server.Patch(url, range, p, next);
      ok := status.Accepted?;
      if ok {
        url, bw, n := next, bw + |p|, |p|;
        TilesAppend(ranges, old(bw), range);
      }
    }

    /** Whatever the writes did, the server stores the bytes it holds under their own digest or nothing. After
        a lost write that moved the upload there is nothing at the client's location any more. */
    method Commit(net: Net) returns (r: Option<Bytes>)
      requires digest.Some?
      modifies this`digest, server
      ensures r.Some? <==>
        && net.Delivered? && url in old(server.uploads)
        && server.hash(old(server.uploads)[url].held) == server.hash(old(digest).value)
      ensures r.Some? ==>
        && digest.None? && r == Some(server.hash(old(server.uploads)[url].held))
        && server.uploads == old(server.uploads) - {url}
        && server.blobs == old(server.blobs)[r.value := old(server.uploads)[url].held]
      ensures r.None? ==> digest == old(digest)
      ensures
        || (server.uploads == old(server.uploads) && server.blobs == old(server.blobs))
        || (url in old(server.uploads)
            && server.uploads == old(server.uploads) - {url}
            && server.blobs == old(server.blobs)[server.hash(old(server.uploads)[url].held) := old(server.uploads)[url].held])
    {
      var d := server.hash(digest.value);
      if net.Lost? {
        if net.acted {
          var _ := server.PutDigest(url, d);
        }
        return None;
      }
      var status := server.PutDigest(url, d);
      if !status.Created? {
        return None;
      }
      digest := None;
      return Some(d);
    }

    method Cleanup(net: Net) returns (ok: bool)
      modifies this`digest, server`uploads
      ensures old(digest).None? ==> ok && digest.None? && server.uploads == old(server.uploads)
      ensures old(digest).Some? ==> (ok <==> net.Delivered? && url in old(server.uploads))
      ensures ok ==> digest.None?
      ensures old(digest).Some? && ok ==> server.uploads == old(server.uploads) - {url}
      ensures !ok ==> digest == old(digest)
      ensures server.uploads == old(server.uploads) || server.uploads == old(server.uploads) - {url}
    {
      if digest.None? {
        return true;
      }
      if net.Lost? {
        if net.acted {
          var _ := server.Delete(url);
        }
        return false;
      }
      var status := server.Delete(url);
      if !status.NoContent? {
        return false;
      }
      digest := None;
      return true;
    }
  }

  function Lookup(blobs: map<Bytes, Bytes>, digest: Bytes): Option<Bytes> {
    if digest in blobs then Some(blobs[digest]) else None
  }

  function Reading(blobs: map<Bytes, Bytes>): Reader {
    d => Lookup(blobs, d)
  }

  /** io.Copy into the upload over a network that loses nothing. For each chunk the server may move the upload
      to a location of its choice, only not to that of another upload. */
  method CopyInto(blob: BlobBeingUploaded, chunks: seq<Bytes>, next: seq<string>)
    requires blob.InStep() && blob.digest == Some([]) && |next| == |chunks|
    requires forall i :: 0 <= i < |next| ==> next[i] == blob.url || next[i] !in blob.server.uploads
    modifies blob, blob.server`uploads
    ensures blob.InStep() && blob.digest == Some(Concat(chunks))
    ensures blob.server.uploads - {blob.url} == old(blob.server.uploads - {blob.url})
  {
    for i := 0 to |chunks|
      invariant blob.InStep() && blob.digest == Some(Concat(chunks[..i]))
      invariant blob.server.uploads - {blob.url} == old(blob.server.uploads - {blob.url})
    {
      assert chunks[..i + 1] == chunks[..i] + [chunks[i]];
      ConcatSnoc(chunks[..i], chunks[i]);
      assert next[i] !in old(blob.server.uploads - {blob.url});
      var _, _ := blob.Write(chunks[i], next[i], Delivered);
    }
    assert chunks[..|chunks|] == chunks;
  }

  /** Put, io.Copy, Commit and Cleanup over a network that loses nothing: the upload becomes the blob, and
      all other uploads and blobs are as before. */
  method StoreAll(server: Server, chunks: seq<Bytes>, location: string, next: seq<string>, ghost store: Store)
    returns (digest: Bytes)
    requires location !in server.uploads && |next| == |chunks|
    requires forall i :: 0 <= i < |next| ==> next[i] !in server.uploads
    modifies server
    ensures Puts(server.hash, Reading(old(server.blobs)), chunks, digest, Reading(server.blobs))
    ensures server.blobs == old(server.blobs)[server.hash(Concat(chunks)) := Concat(chunks)]
    ensures old(Shows(Reading(server.blobs), store)) ==> Shows(Reading(server.blobs), store[digest := Concat(chunks)])
    ensures server.uploads == old(server.uploads)
  {
    ghost var before := server.blobs;
    server.Post(location);
    var blob := new BlobBeingUploaded(server, location);
    CopyInto(blob, chunks, next);
    var r := blob.Commit(Delivered);
    digest := r.value;
    var _ := blob.Cleanup(Delivered);
    if Shows(Reading(before), store) {
      PutsUpdates(server.hash, Reading(before), chunks, digest, Reading(server.blobs), store);
    }
  }
}
