/** The manifest file as a value: what each locked operation of the lock file does. */
module LockSpec {
  import opened Basics

  datatype BlobInfo = BlobInfo(sha256: string, headers: map<string, string>)

  type Manifest = map<string, BlobInfo>

  datatype Options = Options(writable: bool, allowOverwrite: bool, noCache: string -> bool)

  datatype State = State(blobs: Manifest, previous: Manifest, dirty: bool)

  datatype Error = Conflict | NotWritable | WriteError

  datatype Lookup = Found(info: BlobInfo) | Missing | Broken(error: Error)

  /** A save that is not the final one only complains when the file is dirty and read-only. */
  function InternalAdd(o: Options, s: State, k: string, info: BlobInfo): (State, Option<Error>) {
    if k in s.blobs && s.blobs[k] == info then (s, None)
    else if k in s.blobs && !o.allowOverwrite then (s, Some(Conflict))
    else (s.(blobs := s.blobs[k := info], dirty := true),
          if o.writable then None else Some(NotWritable))
  }

  function GetBlob(o: Options, s: State, k: string): (State, Lookup) {
    if o.noCache(k) then (s, Missing)
    else if k in s.blobs then (s, Found(s.blobs[k]))
    else if k in s.previous then
      var (t, e) := InternalAdd(o, s, k, s.previous[k]);
      (t, if e.None? then Found(s.previous[k]) else Broken(e.value))
    else (s, Missing)
  }

  function AddBlob(o: Options, s: State, k: string, info: BlobInfo): (State, Option<Error>) {
    if o.noCache(k) then (s, None) else InternalAdd(o, s, k, info)
  }

  function RemoveEntry(o: Options, s: State, k: string): (State, Option<Error>) {
    if o.noCache(k) || k !in s.blobs then (s, None)
    else (s.(blobs := s.blobs - {k}, dirty := true), if o.writable then None else Some(NotWritable))
  }

  function Reset(o: Options, s: State, forget: bool): (State, Option<Error>) {
    var t := s.(previous := if forget then map[] else s.blobs);
    if s.blobs == map[] then (t, None)
    else (t.(blobs := map[], dirty := true), if o.writable then None else Some(NotWritable))
  }

  /** The JSON text of a manifest, known only by its round-trip law. */
  datatype Codec = Codec(marshal: Manifest -> string, unmarshal: string -> Option<Manifest>)

  ghost predicate Lawful(c: Codec) {
    forall m :: c.unmarshal(c.marshal(m)) == Some(m)
  }

  /** What writing the file may do: a failed write may leave anything, or nothing, behind. */
  datatype WriteOutcome = Written | WriteFailed(left: Option<string>)

  /** The final save in Close: memory, disk and error after it. */
  function Close(c: Codec, o: Options, s: State, disk: Option<string>, w: WriteOutcome)
    : (State, Option<string>, Option<Error>)
  {
    if !o.writable || !s.dirty then (s, disk, None)
    else match w
      case Written => (s.(dirty := false), Some(c.marshal(s.blobs)), None)
      case WriteFailed(left) => (s, left, Some(WriteError))
  }

  /** Opening the file: None when it is missing for a reader, or does not parse. */
  function Load(c: Codec, o: Options, disk: Option<string>): Option<State> {
    match disk
    case None => if o.writable then Some(State(map[], map[], true)) else None
    case Some(text) =>
      match c.unmarshal(text)
      case None => None
      case Some(m) => Some(State(m, map[], false))
  }

  // Whole sessions on one file.

  datatype Op =
    | DoGet(k: string) | DoAdd(k: string, info: BlobInfo) | DoRemove(k: string)
    | DoReset(forget: bool) | DoForEach | DoClose(w: WriteOutcome)

  datatype Reply = Looked(lookup: Lookup) | Ended(error: Option<Error>) | Visited(entries: Manifest)

  datatype Session = Session(mem: State, disk: Option<string>)

  function Step(c: Codec, o: Options, f: Session, op: Op): (Session, Reply) {
    match op
    case DoGet(k) => var (s, r) := GetBlob(o, f.mem, k); (f.(mem := s), Looked(r))
    case DoAdd(k, info) => var (s, e) := AddBlob(o, f.mem, k, info); (f.(mem := s), Ended(e))
    case DoRemove(k) => var (s, e) := RemoveEntry(o, f.mem, k); (f.(mem := s), Ended(e))
    case DoReset(forget) => var (s, e) := Reset(o, f.mem, forget); (f.(mem := s), Ended(e))
    case DoForEach => (f, Visited(f.mem.blobs))
    case DoClose(w) => var (s, d, e) := Close(c, o, f.mem, f.disk, w); (Session(s, d), Ended(e))
  }

  function Run(c: Codec, o: Options, f: Session, ops: seq<Op>): (Session, seq<Reply>)
    decreases |ops|
  {
    if ops == [] then (f, [])
    else
      var (g, r) := Step(c, o, f, ops[0]);
      var (h, rs) := Run(c, o, g, ops[1..]);
      (h, [r] + rs)
  }

  /** Not dirty means the disk already holds the manifest in memory. */
  ghost predicate Sound(c: Codec, mem: State, disk: Option<string>) {
    !mem.dirty ==> disk.Some? && c.unmarshal(disk.value) == Some(mem.blobs)
  }

  lemma {:induction false} RunKeepsSound(c: Codec, o: Options, f: Session, ops: seq<Op>)
    requires Lawful(c) && Sound(c, f.mem, f.disk)
    ensures var g := Run(c, o, f, ops).0; Sound(c, g.mem, g.disk)
    decreases |ops|
  {
    if ops != [] {
      RunKeepsSound(c, o, Step(c, o, f, ops[0]).0, ops[1..]);
    }
  }

  lemma {:induction false} ReadOnlyNeverWrites(c: Codec, o: Options, f: Session, ops: seq<Op>)
    requires !o.writable
    ensures Run(c, o, f, ops).0.disk == f.disk
    decreases |ops|
  {
    if ops != [] {
      ReadOnlyNeverWrites(c, o, Step(c, o, f, ops[0]).0, ops[1..]);
    }
  }

  /** Open a file, do anything, close it: whoever opens it next sees exactly the entries held at the close,
      and a file that was missing is there afterwards. */
  lemma CloseThenLoad(c: Codec, o: Options, disk: Option<string>, ops: seq<Op>, reader: Options)
    requires Lawful(c) && o.writable && Load(c, o, disk).Some?
    ensures
      var f := Run(c, o, Session(Load(c, o, disk).value, disk), ops).0;
      var (g, r) := Step(c, o, f, DoClose(Written));
      && r == Ended(None)
      && Load(c, reader, g.disk) == Some(State(f.mem.blobs, map[], false))
      && Sound(c, g.mem, g.disk) && !g.mem.dirty
  {
    RunKeepsSound(c, o, Session(Load(c, o, disk).value, disk), ops);
  }
}
