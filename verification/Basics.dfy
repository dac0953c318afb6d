/** Types and small facts shared by every module. */
module Basics {

  datatype Option<+T> = None | Some(value: T)

  newtype byte = x: int | 0 <= x < 256

  type Bytes = seq<byte>

  /** SHA-256, kept abstract: every theorem holds for any function from contents to digests. */
  type HashFn = Bytes -> Bytes

  /** Two different contents with one digest. */
  ghost predicate Collides(h: HashFn, a: Bytes, b: Bytes) {
    a != b && h(a) == h(b)
  }

  /** What every blob store is: digests and the contents found under them. */
  type Store = map<Bytes, Bytes>

  ghost predicate WellFormed(h: HashFn, store: Store) {
    forall d :: d in store ==> h(store[d]) == d
  }

  /** A store of any kind, as its users see it: what Get finds under a digest. */
  type Reader = Bytes -> Option<Bytes>

  /** What all three stores promise: after writing the chunks, committing and cleaning up, the digest is that
      of their concatenation, which is found under it, and everything else is found as before. */
  ghost predicate Puts(h: HashFn, before: Reader, chunks: seq<Bytes>, digest: Bytes, after: Reader) {
    && digest == h(Concat(chunks))
    && forall d :: after(d) == if d == digest then Some(Concat(chunks)) else before(d)
  }

  /** The reader finds exactly what the map holds. */
  ghost predicate Shows(reader: Reader, store: Store) {
    forall d :: reader(d) == if d in store then Some(store[d]) else None
  }

  /** So a store of any kind does what the map of digests and contents does, and stays well-formed. */
  lemma PutsUpdates(h: HashFn, before: Reader, chunks: seq<Bytes>, digest: Bytes, after: Reader, store: Store)
    requires Puts(h, before, chunks, digest, after) && Shows(before, store)
    ensures Shows(after, store[h(Concat(chunks)) := Concat(chunks)])
    ensures WellFormed(h, store) ==> WellFormed(h, store[h(Concat(chunks)) := Concat(chunks)])
  {
  }

  /** Contents put into the store one after the other. */
  function PutAll(h: HashFn, store: Store, contents: seq<Bytes>): Store
    decreases |contents|
  {
    if contents == [] then store else PutAll(h, store[h(contents[0]) := contents[0]], contents[1..])
  }

  /** The bytes that a copy takes next: what one read returns, cut to what is left. */
  function ReadAt(size: nat -> nat, total: nat, pos: nat): (n: nat)
    requires pos < total
    ensures 0 < n <= total - pos
  {
    if 0 < size(pos) <= total - pos then size(pos) else total - pos
  }

  /** Every read of a copy that goes on at pos works, the one that meets the end included. */
  predicate AllRead(size: nat -> nat, ok: nat -> bool, total: nat, pos: nat)
    requires pos <= total
    decreases total - pos
  {
    ok(pos) && (pos < total ==> AllRead(size, ok, total, pos + ReadAt(size, total, pos)))
  }

  /** The positions at which such a copy reads, the end of the content last. */
  function Reads(size: nat -> nat, total: nat, pos: nat): seq<nat>
    requires pos <= total
    decreases total - pos
  {
    if pos == total then [total] else [pos] + Reads(size, total, pos + ReadAt(size, total, pos))
  }

  /** They begin at pos and end at the end, and each read moves on by what it returned: by the size given for
      its position, or by all that is left when that size is not possible. */
  lemma {:induction false} ReadsAdvance(size: nat -> nat, total: nat, pos: nat)
    requires pos <= total
    ensures
      var ps := Reads(size, total, pos);
      && |ps| > 0 && ps[0] == pos && ps[|ps| - 1] == total
      && forall i :: 0 <= i < |ps| - 1 ==>
           && ps[i] < total
           && ps[i + 1] == if 0 < size(ps[i]) <= total - ps[i] then ps[i] + size(ps[i]) else total
    decreases total - pos
  {
    if pos < total {
      var next := pos + ReadAt(size, total, pos);
      ReadsAdvance(size, total, next);
      var ps, rest := Reads(size, total, pos), Reads(size, total, next);
      assert ps == [pos] + rest;
      forall i | 0 <= i < |ps| - 1
        ensures ps[i] < total
        ensures ps[i + 1] == if 0 < size(ps[i]) <= total - ps[i] then ps[i] + size(ps[i]) else total
      {
        if i > 0 {
          assert ps[i] == rest[i - 1] && ps[i + 1] == rest[i];
        }
      }
    }
  }

  lemma {:induction false} ReadsBelow(size: nat -> nat, total: nat, pos: nat, p: nat)
    requires pos <= total && p in Reads(size, total, pos)
    ensures p <= total
    decreases total - pos
  {
    if pos < total && p != pos {
      ReadsBelow(size, total, pos + ReadAt(size, total, pos), p);
    }
  }

  lemma {:induction false} AllReadAt(size: nat -> nat, ok: nat -> bool, total: nat, pos: nat)
    requires pos <= total
    ensures AllRead(size, ok, total, pos) <==> forall p :: p in Reads(size, total, pos) ==> ok(p)
    decreases total - pos
  {
    if pos < total {
      AllReadAt(size, ok, total, pos + ReadAt(size, total, pos));
    }
  }

  lemma {:induction false} NoFaultAllRead(size: nat -> nat, ok: nat -> bool, total: nat, pos: nat)
    requires pos <= total && forall p :: pos <= p <= total ==> ok(p)
    ensures AllRead(size, ok, total, pos)
    decreases total - pos
  {
    if pos < total {
      NoFaultAllRead(size, ok, total, pos + ReadAt(size, total, pos));
    }
  }

  function Concat(chunks: seq<Bytes>): Bytes {
    if chunks == [] then [] else chunks[0] + Concat(chunks[1..])
  }

  lemma {:induction false} ConcatSnoc(chunks: seq<Bytes>, last: Bytes)
    ensures Concat(chunks + [last]) == Concat(chunks) + last
  {
    if chunks == [] {
      assert Concat([last]) == last + Concat([]);
    } else {
      assert (chunks + [last])[1..] == chunks[1..] + [last];
      ConcatSnoc(chunks[1..], last);
    }
  }
}
