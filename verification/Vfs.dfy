/** The virtual file system of packages/pe-runner/src/win32.mjs: every handle holds its own copy of
    the file, and each write publishes that whole copy under the file's normalised path. */
module Vfs {
  import opened Common
  import opened GuestMemory

  const LIMIT: nat := 0x10_0000

  // ------------------------------------------------------------ paths

  function Lower(c: char): char {
    if 'A' <= c <= 'Z' then (c as int + 32) as char else c
  }

  /** Case-insensitive, with either slash. */
  function NormPath(p: string): (r: string)
    ensures |r| == |p|
    ensures forall i :: 0 <= i < |p| ==> r[i] == Lower(if p[i] == '/' then '\\' else p[i])
  {
    seq(|p|, i requires 0 <= i < |p| => Lower(if p[i] == '/' then '\\' else p[i]))
  }

  lemma NormIdempotent(p: string)
    ensures NormPath(NormPath(p)) == NormPath(p)
  {
  }

  // ------------------------------------------------------------ one open file

  datatype File = File(path: string, data: seq<byte>, pos: nat)

  /** subarray(0, k): a negative k counts from the end. */
  function Sub(bs: seq<byte>, k: int): seq<byte> {
    var e := Max(0, Min(if k < 0 then |bs| + k else k, |bs|));
    bs[..e]
  }

  /** Overwrites a buffer from a position on; None is the RangeError of a store past its end. */
  function SetAt(buf: seq<byte>, bs: seq<byte>, at: nat): Option<seq<byte>> {
    if at + |bs| <= |buf| then Some(buf[..at] + bs + buf[at + |bs|..]) else None
  }

  /** WriteFile of n guest bytes; data is what could be read of them (all or nothing). */
  function Written(f: File, n: nat, data: seq<byte>): Option<File> {
    var pos := Min(f.pos, |f.data|);
    var end := Min(pos + n, LIMIT);
    var size := Max(|f.data|, end);
    var buf := f.data + Zeros(size - |f.data|);
    match SetAt(buf, Sub(data, end - pos), pos)
    case None => None
    case Some(next) => Some(f.(data := next, pos := end))
  }

  function ReadCount(f: File, want: nat): nat { Max(0, Min(want, |f.data| - f.pos)) }

  function ReadBytes(f: File, want: nat): (bs: seq<byte>)
    ensures |bs| == ReadCount(f, want)
  {
    if f.pos <= |f.data| then f.data[f.pos..f.pos + ReadCount(f, want)] else []
  }

  datatype Origin = Begin | Current | End

  function Sought(f: File, dist: int, from: Origin): nat {
    Max(0, match from case Begin => dist case Current => f.pos + dist case End => |f.data| + dist)
  }

  /** The file a byte array with a cursor would be after writing: the cursor first falls back to
      the end, the bytes replace what follows it, and the cursor moves behind them. */
  function CursorWrite(f: File, bs: seq<byte>): File {
    var c := Min(f.pos, |f.data|);
    var rest := if c + |bs| <= |f.data| then f.data[c + |bs|..] else [];
    f.(data := f.data[..c] + bs + rest, pos := c + |bs|)
  }

  /** A write is a cursor write exactly when it ends at or below one mebibyte; beyond that bytes are
      dropped although all of them are reported as written. */
  lemma WriteIsCursorWriteIff(f: File, bs: seq<byte>)
    ensures Written(f, |bs|, bs) == Some(CursorWrite(f, bs)) <==> Min(f.pos, |f.data|) + |bs| <= 0x10_0000
  {
    var c := Min(f.pos, |f.data|);
    if c + |bs| <= LIMIT {
      var size := Max(|f.data|, c + |bs|);
      var buf := f.data + Zeros(size - |f.data|);
      assert Sub(bs, |bs|) == bs;
      assert buf[..c] == f.data[..c];
      if c + |bs| <= |f.data| {
        assert buf == f.data;
      } else {
        assert buf[c + |bs|..] == [];
      }
    } else {
      var w := Written(f, |bs|, bs);
      assert w.Some? ==> w.value.pos == LIMIT;
    }
  }

  /** The smallest failing case: one byte written at the end of a full file is dropped. */
  lemma FullFileDropsWrite()
    ensures var f := File("a", Zeros(LIMIT), LIMIT);
      Written(f, 1, [1]) == Some(f) && CursorWrite(f, [1]).data == f.data + [1]
  {
    var f := File("a", Zeros(LIMIT), LIMIT);
    assert Sub([1], 0) == [];
    assert f.data + Zeros(0) == f.data;
    assert f.data[..LIMIT] + [] + f.data[LIMIT..] == f.data;
  }

  /** What was written is read back from where it was written. */
  lemma ReadAfterWrite(f: File, bs: seq<byte>)
    requires Min(f.pos, |f.data|) + |bs| <= LIMIT
    ensures var c := Min(f.pos, |f.data|);
      Written(f, |bs|, bs).Some? &&
      ReadBytes(Written(f, |bs|, bs).value.(pos := Sought(f, c, Begin)), |bs|) == bs
  {
    WriteIsCursorWriteIff(f, bs);
    var c, g := Min(f.pos, |f.data|), CursorWrite(f, bs);
    assert g.data[c..c + |bs|] == bs;
  }

  // ------------------------------------------------------------ the file system

  /** Published contents: key and bytes, oldest first. */
  type Log = seq<(string, seq<byte>)>

  /** What the most recent publication under a key left, else the seed, else nothing. */
  function Latest(log: Log, seed: map<string, seq<byte>>, key: string): seq<byte> {
    if log == [] then if key in seed then seed[key] else []
    else if log[|log| - 1].0 == key then log[|log| - 1].1
    else Latest(log[..|log| - 1], seed, key)
  }

  class FileSystem {
    /** Seeded files and published ones, by normalised path. */
    const seed: map<string, seq<byte>>
    var overlay: map<string, seq<byte>>
    var files: map<int, File>
    var nextHandle: int
    ghost var log: Log

    /** The overlay answers what the history of writes says; handles are fresh. */
    ghost predicate Valid()
      reads this
    {
      && (forall key :: Lookup(key) == Latest(log, seed, key))
      && (forall h :: h in files ==> h < nextHandle)
    }

    function Lookup(key: string): seq<byte>
      reads this
    {
      if key in overlay then overlay[key] else if key in seed then seed[key] else []
    }

    constructor (seed: map<string, seq<byte>>)
      ensures Valid() && files == map[] && log == [] && this.seed == seed
    {
      this.seed := seed;
      overlay, files, nextHandle := map[], map[], 0x104;
      log := [];
    }

    /** A handle opened without truncation holds exactly what the latest write to the path left;
        a truncating open holds nothing, and publishes nothing either. */
    method CreateFile(path: string, truncate: bool) returns (h: int)
      requires Valid()
      modifies this`files, this`nextHandle
      ensures Valid() && h !in old(files)
      ensures files == old(files)[h := File(path, if truncate then [] else Latest(log, seed, NormPath(path)), 0)]
    {
      h := nextHandle;
      nextHandle := nextHandle + 4;
      files := files[h := File(path, if truncate then [] else Lookup(NormPath(path)), 0)];
    }

    /** A handle that is no file reads zeros, at most a page. */
    method ReadFile(h: int, size: nat) returns (bs: seq<byte>)
      requires Valid()
      modifies this`files
      ensures Valid()
      ensures h in old(files) ==>
        var f, n := old(files)[h], Min(size, 0x10_0000);
        bs ==
        if f.pos + n <= |f.data| then f.data[f.pos..f.pos + n] else if f.pos <= |f.data| then f.data[f.pos..] else []
      ensures h in old(files) ==> files == old(files)[h := old(files)[h].(pos := old(files)[h].pos + |bs|)]
      ensures h !in old(files) ==> bs == Zeros(Min(size, 4096)) && files == old(files)
    {
      if h !in files { return Zeros(Min(Min(size, LIMIT), 4096)); }
      var f := files[h];
      bs := ReadBytes(f, Min(size, LIMIT));
      files := files[h := f.(pos := f.pos + |bs|)];
    }

    method SetFilePointer(h: int, dist: int, from: Origin)
      requires Valid()
      modifies this`files
      ensures Valid()
      ensures files ==
        if h in old(files) then old(files)[h := old(files)[h].(pos := Sought(old(files)[h], dist, from))]
        else old(files)
      ensures h in old(files) ==>
        var f, pos := old(files)[h], files[h].pos;
        && (from.Begin? && dist >= 0 ==> pos == dist)
        && (from.Current? && f.pos + dist >= 0 ==> pos - f.pos == dist)
        && (from.End? && |f.data| + dist >= 0 ==> pos - |f.data| == dist)
        && (pos == 0 || pos == dist || pos == f.pos + dist || pos == |f.data| + dist)
    {
      if h !in files { return; }
      files := files[h := files[h].(pos := Sought(files[h], dist, from))];
    }

    /** Changes the handle's copy only, and publishes it; other handles on the same path keep theirs.
        An exception publishes nothing, nor does a handle that is no file. */
    method WriteFile(h: int, data: seq<byte>, readable: bool) returns (ok: bool)
      requires Valid()
      modifies this
      ensures Valid()
      ensures h !in old(files) ==> ok && files == old(files) && log == old(log)
      ensures h in old(files) ==>
        var f := old(files)[h];
        var n := Min(|data|, LIMIT);
        match Written(f, n, if readable then data[..n] else [])
        case None => !ok && files == old(files) && log == old(log)
        case Some(g) => ok && files == old(files)[h := g] && log == old(log) + [(NormPath(f.path), g.data)]
    {
      if h !in files { return true; }
      var f := files[h];
      var n := Min(|data|, LIMIT);
      var w := Written(f, n, if readable then data[..n] else []);
      if w.None? { return false; }
      var key := NormPath(f.path);
      files := files[h := w.value];
      overlay := overlay[key := w.value.data];
      log := log + [(key, w.value.data)];
      assert log[..|log| - 1] == old(log);
      ok := true;
    }
  }

  // ------------------------------------------------------------ runs of one handle

  datatype Op = Read(want: nat) | Write(bytes: seq<byte>) | Seek(dist: int, from: Origin)

  /** What the handlers do to the handle's record; a throw leaves it alone. */
  function Step(f: File, op: Op): File {
    match op
    case Read(want) => f.(pos := f.pos + ReadCount(f, Min(want, LIMIT)))
    case Write(bs) =>
      var n := Min(|bs|, LIMIT);
      var w := Written(f, n, bs[..n]);
      if w.Some? then w.value else f
    case Seek(dist, from) => f.(pos := Sought(f, dist, from))
  }

  /** The byte array with a cursor. */
  function CursorStep(f: File, op: Op): File {
    match op
    case Read(want) => f.(pos := f.pos + Max(0, Min(Min(want, LIMIT), |f.data| - f.pos)))
    case Write(bs) => CursorWrite(f, bs)
    case Seek(dist, from) => f.(pos := Sought(f, dist, from))
  }

  function Run(f: File, ops: seq<Op>): File
    decreases |ops|
  {
    if ops == [] then f else Run(Step(f, ops[0]), ops[1..])
  }

  function CursorRun(f: File, ops: seq<Op>): File
    decreases |ops|
  {
    if ops == [] then f else CursorRun(CursorStep(f, ops[0]), ops[1..])
  }

  /** Every write of the cursor run ends at or below the limit. */
  predicate WithinLimit(f: File, ops: seq<Op>)
    decreases |ops|
  {
    ops == [] ||
    ((ops[0].Write? ==> Min(f.pos, |f.data|) + |ops[0].bytes| <= LIMIT) && WithinLimit(CursorStep(f, ops[0]), ops[1..]))
  }

  /** Over any run within the limit a handle is a byte array with a cursor. */
  lemma {:induction false} HandleRefinesCursor(f: File, ops: seq<Op>)
    requires WithinLimit(f, ops)
    ensures Run(f, ops) == CursorRun(f, ops)
    decreases |ops|
  {
    hide Written, CursorWrite;
    if ops != [] {
      if ops[0].Write? {
        var bs := ops[0].bytes;
        WriteIsCursorWriteIff(f, bs);
        assert bs[..|bs|] == bs;
      }
      HandleRefinesCursor(CursorStep(f, ops[0]), ops[1..]);
    }
  }
}
