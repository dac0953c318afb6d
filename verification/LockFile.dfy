/** lockfile.File: the manifest held in mutable map objects that Reset may alias. */
module LockFile {
  import opened Basics
  import opened LockSpec

  /** A Go map: passed around by reference, changed in place. */
  class BlobMap {
    var entries: Manifest

    constructor ()
      ensures entries == map[]
    {
      entries := map[];
    }
  }

  /** The manifest's path on disk: None while there is no file. */
  class Disk {
    var text: Option<string>

    constructor (text: Option<string>)
      ensures this.text == text
    {
      this.text := text;
    }
  }

  class File {
    const codec: Codec
    const options: Options
    const disk: Disk
    var blobs: BlobMap
    var previousBlobs: BlobMap?
    var dirty: bool

    /** The state with two independent map values. When both fields hold one object, that object was empty
        at the Reset which aliased them, so the independent second map would still be empty. */
    ghost function Abs(): State
      reads this, blobs, previousBlobs
    {
      State(blobs.entries,
            if previousBlobs == null || previousBlobs == blobs then map[] else previousBlobs.entries,
            dirty)
    }

    constructor Init(codec: Codec, options: Options, disk: Disk, entries: Manifest, dirty: bool)
      ensures this.codec == codec && this.options == options && this.disk == disk
      ensures fresh(blobs)
      ensures Abs() == State(entries, map[], dirty)
    {
      this.codec, this.options, this.disk, this.dirty := codec, options, disk, dirty;
      this.previousBlobs := null;
      var m := new BlobMap();
      this.blobs := m;
      new;
      this.blobs.entries := entries;
    }

    static method NewMapFile(codec: Codec, options: Options, disk: Disk) returns (f: File?)
      ensures f == null <==> Load(codec, options, disk.text).None?
      ensures f != null ==>
        && fresh(f) && fresh(f.blobs)
        && f.codec == codec && f.options == options && f.disk == disk
        && Some(f.Abs()) == Load(codec, options, disk.text)
      // A missing file is empty, and has to be written, for a writer, and an error for a reader.
      ensures disk.text.None? ==> (f != null <==> options.writable)
      ensures disk.text.None? && f != null ==> f.Abs() == State(map[], map[], true)
      // A text that does not parse is an error, and stays as it is; any other gives its entries.
      ensures disk.text.Some? ==> (f != null <==> codec.unmarshal(disk.text.value).Some?)
      ensures disk.text.Some? && f != null ==> f.Abs() == State(codec.unmarshal(disk.text.value).value, map[], false)
    {
      f := null;
      if disk.text.None? {
        if options.writable {
          f := new File.Init(codec, options, disk, map[], true);
        }
      } else {
        var parsed := codec.unmarshal(disk.text.value);
        if parsed.Some? {
          f := new File.Init(codec, options, disk, parsed.value, false);
        }
      }
    }

    method SkipSave(k: string) returns (r: bool)
      ensures r == options.noCache(k)
    {
      r := options.noCache(k);
    }

    method GetBlob(k: string) returns (r: Lookup)
      modifies this`dirty, blobs
      ensures (Abs(), r) == LockSpec.GetBlob(options, old(Abs()), k)
      ensures options.noCache(k) ==> r == Missing
      ensures !options.noCache(k) && k in old(Abs()).blobs ==> r == Found(old(Abs()).blobs[k])
      ensures !options.noCache(k) && k !in old(Abs()).blobs ==>
        if k in old(Abs()).previous then
          var info := old(Abs()).previous[k];
          && r == (if options.writable then Found(info) else Broken(NotWritable))
          && Abs() == State(old(Abs()).blobs[k := info], old(Abs()).previous, true)
        else r == Missing
      ensures options.noCache(k) || k in old(Abs()).blobs || k !in old(Abs()).previous ==> Abs() == old(Abs())
    {
      if options.noCache(k) {
        return Missing;
      }
      if k in blobs.entries {
        return Found(blobs.entries[k]);
      }
      if previousBlobs != null && k in previousBlobs.entries {
        var info := previousBlobs.entries[k];
        var e := InternalAddBlob(k, info);
        return if e.None? then Found(info) else Broken(e.value);
      }
      return Missing;
    }

    method AddBlob(k: string, info: BlobInfo) returns (e: Option<LockSpec.Error>)
      modifies this`dirty, blobs
      ensures (Abs(), e) == LockSpec.AddBlob(options, old(Abs()), k, info)
      ensures options.noCache(k) ==> e == None && Abs() == old(Abs())
      ensures !options.noCache(k) ==> (Abs(), e) == LockSpec.InternalAdd(options, old(Abs()), k, info)
    {
      if options.noCache(k) {
        return None;
      }
      e := InternalAddBlob(k, info);
    }

    method InternalAddBlob(k: string, info: BlobInfo) returns (e: Option<LockSpec.Error>)
      modifies this`dirty, blobs
      ensures (Abs(), e) == LockSpec.InternalAdd(options, old(Abs()), k, info)
      ensures k in old(Abs()).blobs && old(Abs()).blobs[k] == info ==> e == None && Abs() == old(Abs())
      ensures k in old(Abs()).blobs && old(Abs()).blobs[k] != info && !options.allowOverwrite ==>
        e == Some(Conflict) && Abs() == old(Abs())
      ensures k !in old(Abs()).blobs || (old(Abs()).blobs[k] != info && options.allowOverwrite) ==>
        && Abs() == State(old(Abs()).blobs[k := info], old(Abs()).previous, true)
        && e == if options.writable then None else Some(NotWritable)
    {
      if k in blobs.entries {
        if blobs.entries[k] == info {
          return None;
        }
        if !options.allowOverwrite {
          return Some(Conflict);
        }
      }
      blobs.entries := blobs.entries[k := info];
      dirty := true;
      e := SaveNow();
    }

    method RemoveEntry(k: string) returns (e: Option<LockSpec.Error>)
      modifies this`dirty, blobs
      ensures (Abs(), e) == LockSpec.RemoveEntry(options, old(Abs()), k)
      ensures options.noCache(k) || k !in old(Abs()).blobs ==> e == None && Abs() == old(Abs())
      ensures !options.noCache(k) && k in old(Abs()).blobs ==>
        && Abs() == State(old(Abs()).blobs - {k}, old(Abs()).previous, true)
        && e == if options.writable then None else Some(NotWritable)
    {
      if options.noCache(k) || k !in blobs.entries {
        return None;
      }
      blobs.entries := blobs.entries - {k};
      dirty := true;
      e := SaveNow();
    }

    method Reset(forget: bool) returns (e: Option<LockSpec.Error>)
      modifies this
      ensures blobs == old(blobs) || fresh(blobs)
      ensures (Abs(), e) == LockSpec.Reset(options, old(Abs()), forget)
      ensures Abs().blobs == map[] && Abs().previous == if forget then map[] else old(Abs()).blobs
      ensures Abs().dirty <==> old(Abs()).dirty || old(Abs()).blobs != map[]
      ensures e == if options.writable || old(Abs()).blobs == map[] then None else Some(NotWritable)
    {
      previousBlobs := if forget then null else blobs;
      if |blobs.entries| == 0 {
        return None;
      }
      blobs := new BlobMap();
      dirty := true;
      e := SaveNow();
    }

    /** The iteration of ForEach: every entry once, in an order the caller cannot choose. */
    method ForEach() returns (visited: seq<(string, BlobInfo)>)
      ensures forall i, j :: 0 <= i < j < |visited| ==> visited[i].0 != visited[j].0
      ensures forall i :: 0 <= i < |visited| ==> (visited[i].0 in blobs.entries && blobs.entries[visited[i].0] == visited[i].1)
      ensures forall k :: k in blobs.entries ==> (k, blobs.entries[k]) in visited
    {
      visited := [];
      var rest := blobs.entries.Keys;
      while rest != {}
        invariant rest <= blobs.entries.Keys
        invariant forall i, j :: 0 <= i < j < |visited| ==> visited[i].0 != visited[j].0
        invariant forall i :: 0 <= i < |visited| ==>
          visited[i].0 in blobs.entries && blobs.entries[visited[i].0] == visited[i].1 && visited[i].0 !in rest
        invariant forall k :: k in blobs.entries && k !in rest ==> (k, blobs.entries[k]) in visited
        decreases rest
      {
        var k :| k in rest;
        ghost var before := visited;
        visited := visited + [(k, blobs.entries[k])];
        rest := rest - {k};
        forall k' | k' in blobs.entries && k' !in rest
          ensures (k', blobs.entries[k']) in visited
        {
          if k' != k {
            assert (k', blobs.entries[k']) in before;
          }
        }
      }
    }

    /** save(false): nothing is written before the file is closed. */
    method SaveNow() returns (e: Option<LockSpec.Error>)
      ensures e == if dirty && !options.writable then Some(NotWritable) else None
    {
      if !dirty {
        return None;
      }
      if !options.writable {
        return Some(NotWritable);
      }
      return None;
    }

    method Close(w: WriteOutcome) returns (e: Option<LockSpec.Error>)
      modifies this`dirty, disk
      ensures (Abs(), disk.text, e) == LockSpec.Close(codec, options, old(Abs()), old(disk.text), w)
      ensures Abs().blobs == old(Abs()).blobs && Abs().previous == old(Abs()).previous
      ensures !options.writable || !old(Abs()).dirty ==> e == None && disk.text == old(disk.text) && Abs() == old(Abs())
      ensures options.writable && old(Abs()).dirty ==>
        if w.Written? then e == None && disk.text == Some(codec.marshal(old(Abs()).blobs)) && !Abs().dirty
        else e == Some(WriteError) && disk.text == w.left && Abs().dirty
    {
      if !options.writable || !dirty {
        return None;
      }
      match w
      case Written =>
        disk.text := Some(codec.marshal(blobs.entries));
        dirty := false;
        return None;
      case WriteFailed(left) =>
        disk.text := left;
        return Some(WriteError);
    }
  }

  /** How a build begins: the file is opened for writing and reset. Without a file there is no previous run. */
  method OpenForBuild(codec: Codec, options: Options, disk: Disk, forget: bool) returns (f: File?)
    requires options.writable
    ensures f == null <==> disk.text.Some? && codec.unmarshal(disk.text.value).None?
    ensures f != null ==> fresh(f) && fresh(f.blobs) && f.codec == codec && f.options == options && f.disk == disk
    ensures f != null ==> f.Abs() == State(
      map[],
      if forget || disk.text.None? then map[] else codec.unmarshal(disk.text.value).value,
      disk.text.None? || codec.unmarshal(disk.text.value).value != map[])
  {
    f := File.NewMapFile(codec, options, disk);
    if f != null {
      var _ := f.Reset(forget);
    }
  }

  /** A build that records nothing leaves a file without entries, also where there was none. */
  method BuildOfNothing(codec: Codec, options: Options, disk: Disk, reader: Options) returns (f: File?)
    requires options.writable && Lawful(codec) && disk.text.None?
    modifies disk
    ensures disk.text == Some(codec.marshal(map[]))
    ensures f != null && f.Abs() == State(map[], map[], false)
  {
    f := OpenForBuild(codec, options, disk, false);
    var _ := f.Close(Written);
    f := File.NewMapFile(codec, reader, disk);
  }

  /** A callback that notes every entry it is given has noted the whole manifest. */
  method VisitAll(f: File) returns (all: Manifest)
    ensures all == f.blobs.entries
  {
    var visited := f.ForEach();
    all := map j | 0 <= j < |visited| :: visited[j].0 := visited[j].1;
    assert forall k :: k in f.blobs.entries ==> (k, f.blobs.entries[k]) in visited && k in all;
  }

  /** One call on the file, whichever it is. */
  method Perform(f: File, op: Op) returns (r: Reply)
    modifies f, f.blobs, f.disk
    ensures f.blobs == old(f.blobs) || fresh(f.blobs)
    ensures (Session(f.Abs(), f.disk.text), r)
         == Step(f.codec, f.options, old(Session(f.Abs(), f.disk.text)), op)
  {
    match op
    case DoGet(k) => var l := f.GetBlob(k); r := Looked(l);
    case DoAdd(k, info) => var e := f.AddBlob(k, info); r := Ended(e);
    case DoRemove(k) => var e := f.RemoveEntry(k); r := Ended(e);
    case DoReset(forget) => var e := f.Reset(forget); r := Ended(e);
    case DoForEach => var all := VisitAll(f); r := Visited(all);
    case DoClose(w) => var e := f.Close(w); r := Ended(e);
  }

  /** Any client: whatever sequence of calls it makes on the aliasing file, its answers and the disk are
      those of the specification, which holds two map values. */
  method RunClient(f: File, ops: seq<Op>) returns (replies: seq<Reply>)
    modifies f, f.blobs, f.disk
    ensures (Session(f.Abs(), f.disk.text), replies)
         == Run(f.codec, f.options, old(Session(f.Abs(), f.disk.text)), ops)
  {
    replies := [];
    for i := 0 to |ops|
      invariant f.blobs == old(f.blobs) || fresh(f.blobs)
      invariant (Session(f.Abs(), f.disk.text), replies)
             == Run(f.codec, f.options, old(Session(f.Abs(), f.disk.text)), ops[..i])
    {
      RunSnoc(f.codec, f.options, old(Session(f.Abs(), f.disk.text)), ops[..i], ops[i]);
      assert ops[..i + 1] == ops[..i] + [ops[i]];
      var r := Perform(f, ops[i]);
      replies := replies + [r];
    }
    assert ops[..|ops|] == ops;
  }

  lemma {:induction false} RunSnoc(c: Codec, o: Options, f: Session, ops: seq<Op>, last: Op)
    ensures
      var (g, rs) := Run(c, o, f, ops);
      var (h, r) := Step(c, o, g, last);
      Run(c, o, f, ops + [last]) == (h, rs + [r])
    decreases |ops|
  {
    var (f', r0) := Step(c, o, f, (ops + [last])[0]);
    if ops == [] {
      assert (ops + [last])[1..] == [];
      assert Run(c, o, f, ops + [last]) == (f', [r0] + []);
      assert [r0] + [] == [] + [r0];
    } else {
      assert (ops + [last])[1..] == ops[1..] + [last];
      RunSnoc(c, o, f', ops[1..], last);
      var (g, rs) := Run(c, o, f', ops[1..]);
      assert [r0] + (rs + [Step(c, o, g, last).1]) == [r0] + rs + [Step(c, o, g, last).1];
    }
  }
}
