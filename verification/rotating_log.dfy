/** The server's size-rotated log (internal/utils/rotatingfile.go) over a file system modelled as a map. */
module RotatingLog {
  import opened Common

  datatype Path = Current | Backup(i: int)

  /** A file as the list of writes appended to it, and whether a rotation created it. */
  datatype File = File(writes: seq<seq<byte>>, byRotation: bool)

  type FileSystem = map<Path, File>

  datatype Limits = Limits(maxSize: int, maxBackups: int)

  datatype Log = Log(fs: FileSystem, size: int, isOpen: bool)

  datatype WriteError = ErrClosed

  function At(fs: FileSystem, p: Path): Option<File> {
    if p in fs then Some(fs[p]) else None
  }

  function BytesAt(fs: FileSystem, p: Path): seq<byte> {
    if p in fs then Concat(fs[p].writes) else []
  }

  function Rotates(l: Limits): bool {
    l.maxSize > 0 && l.maxBackups > 0
  }

  /** An open log has a current file, and `size` is its length. */
  predicate Valid(s: Log) {
    s.isOpen ==> Current in s.fs && s.size == |BytesAt(s.fs, Current)|
  }

  // ---------------------------------------------------------------------------
  // What opening, rotating and writing do to the file system

  function Opened(fs: FileSystem): (s: Log)
    ensures Valid(s)
  {
    var fs' := if Current in fs then fs else fs[Current := File([], false)];
    Log(fs', |BytesAt(fs', Current)|, true)
  }

  /** Every file in the window moves up by one, the last one is gone, and the current file is new. */
  function RotatedAt(l: Limits, fs: FileSystem, p: Path): Option<File> {
    match p
    case Current => Some(File([], true))
    case Backup(i) =>
      if i == 1 then At(fs, Current)
      else if 1 < i <= l.maxBackups then At(fs, Backup(i - 1))
      else At(fs, p)
  }

  /** The paths that may exist after a rotation. */
  function Reach(fs: FileSystem): set<Path> {
    fs.Keys + {Current, Backup(1)} + set p | p in fs.Keys && p.Backup? :: Backup(p.i + 1)
  }

  function Rotated(l: Limits, fs: FileSystem): FileSystem {
    map p | p in Reach(fs) && RotatedAt(l, fs, p).Some? :: RotatedAt(l, fs, p).value
  }

  lemma RotatedLookup(l: Limits, fs: FileSystem, p: Path)
    ensures At(Rotated(l, fs), p) == RotatedAt(l, fs, p)
  {
    if p.Backup? && Backup(p.i - 1) in fs {
      assert Backup((p.i - 1) + 1) == p;
      assert p in Reach(fs);
    }
  }

  function Appended(fs: FileSystem, p: seq<byte>): FileSystem
    requires Current in fs
  {
    fs[Current := File(fs[Current].writes + [p], fs[Current].byRotation)]
  }

  predicate NeedsRotation(l: Limits, s: Log, p: seq<byte>) {
    s.isOpen && Rotates(l) && s.size > 0 && s.size + |p| > l.maxSize
  }

  function Wrote(l: Limits, s: Log, p: seq<byte>): (s': Log)
    requires Valid(s)
    ensures Valid(s')
  {
    if !s.isOpen then s
    else if NeedsRotation(l, s, p) then
      RotatedLookup(l, s.fs, Current);
      ConcatSnoc([], p);
      Log(Appended(Rotated(l, s.fs), p), |p|, true)
    else
      ConcatSnoc(s.fs[Current].writes, p);
      Log(Appended(s.fs, p), s.size + |p|, true)
  }

  /** The file system while the rename loop has yet to look at backups `i`, `i - 1`, ..., 1. */
  function ShiftedAt(l: Limits, i: int, fs: FileSystem, p: Path): Option<File> {
    if p == Backup(i + 1) then None
    else if p.Backup? && i + 1 < p.i <= l.maxBackups then At(fs, Backup(p.i - 1))
    else At(fs, p)
  }

  ghost predicate Shifted(l: Limits, i: int, fs0: FileSystem, fs: FileSystem) {
    forall p :: At(fs, p) == ShiftedAt(l, i, fs0, p)
  }

  function Moved(fs: FileSystem, src: Path, dst: Path): FileSystem {
    if src in fs then (fs - {src})[dst := fs[src]] else fs
  }

  lemma ShiftOne(l: Limits, i: int, fs0: FileSystem, fs: FileSystem)
    requires 1 <= i < l.maxBackups && Shifted(l, i, fs0, fs)
    ensures Shifted(l, i - 1, fs0, Moved(fs, Backup(i), Backup(i + 1)))
  {
    var fs' := Moved(fs, Backup(i), Backup(i + 1));
    assert At(fs, Backup(i)) == ShiftedAt(l, i, fs0, Backup(i));
    assert At(fs, Backup(i + 1)) == ShiftedAt(l, i, fs0, Backup(i + 1));
    forall p
      ensures At(fs', p) == ShiftedAt(l, i - 1, fs0, p)
    {
      assert At(fs, p) == ShiftedAt(l, i, fs0, p);
    }
  }

  lemma ShiftLast(l: Limits, fs0: FileSystem, fs: FileSystem)
    requires l.maxBackups > 0 && Shifted(l, 0, fs0, fs)
    ensures Moved(fs, Current, Backup(1))[Current := File([], true)] == Rotated(l, fs0)
  {
    var fs' := Moved(fs, Current, Backup(1))[Current := File([], true)];
    assert At(fs, Current) == ShiftedAt(l, 0, fs0, Current);
    assert At(fs, Backup(1)) == ShiftedAt(l, 0, fs0, Backup(1));
    forall p
      ensures At(fs', p) == At(Rotated(l, fs0), p)
    {
      RotatedLookup(l, fs0, p);
      assert At(fs, p) == ShiftedAt(l, 0, fs0, p);
    }
    SameLookups(fs', Rotated(l, fs0));
  }

  lemma SameLookups(a: FileSystem, b: FileSystem)
    requires forall p :: At(a, p) == At(b, p)
    ensures a == b
  {
    forall p
      ensures p in a <==> p in b
      ensures p in a && p in b ==> a[p] == b[p]
    {
      assert At(a, p) == At(b, p);
    }
  }

  class RotatingWriter {
    const limits: Limits
    var fs: FileSystem
    var size: int
    var isOpen: bool

    ghost function State(): Log
      reads this
    {
      Log(fs, size, isOpen)
    }

    constructor (limits: Limits, fs: FileSystem)
      ensures this.limits == limits && State() == Opened(fs)
    {
      this.limits := limits;
      this.fs := if Current in fs then fs else fs[Current := File([], false)];
      size := |BytesAt(if Current in fs then fs else fs[Current := File([], false)], Current)|;
      isOpen := true;
    }

    method Remove(p: Path)
      modifies this`fs
      ensures fs == old(fs) - {p}
    {
      fs := fs - {p};
    }

    method Rename(src: Path, dst: Path)
      requires src in fs && src != dst
      modifies this`fs
      ensures fs == (old(fs) - {src})[dst := old(fs)[src]]
    {
      fs := (fs - {src})[dst := fs[src]];
    }

    method Rotate()
      requires limits.maxBackups > 0
      modifies this
      ensures State() == Log(Rotated(limits, old(fs)), 0, true)
    {
      isOpen := false;
      Remove(Backup(limits.maxBackups));
      var i := limits.maxBackups - 1;
      while i >= 1
        invariant 0 <= i < limits.maxBackups
        invariant Shifted(limits, i, old(fs), fs)
      {
        ShiftOne(limits, i, old(fs), fs);
        if Backup(i) in fs {
          Rename(Backup(i), Backup(i + 1));
        }
        i := i - 1;
      }
      ShiftLast(limits, old(fs), fs);
      if Current in fs {
        Rename(Current, Backup(1));
      }
      fs := fs[Current := File([], true)];
      isOpen := true;
      size := 0;
    }

    method Write(p: seq<byte>) returns (r: Result<nat, WriteError>)
      requires Valid(State())
      modifies this
      ensures State() == Wrote(limits, old(State()), p)
      ensures r == if old(isOpen) then Ok(|p|) else Err(ErrClosed)
    {
      if !isOpen {
        return Err(ErrClosed);
      }
      if Rotates(limits) && size > 0 && size + |p| > limits.maxSize {
        RotatedLookup(limits, fs, Current);
        Rotate();
      }
      fs := Appended(fs, p);
      size := size + |p|;
      r := Ok(|p|);
    }

    method Close()
      modifies this`isOpen
      ensures !isOpen
    {
      isOpen := false;
    }
  }

  // ---------------------------------------------------------------------------
  // Properties of every run

  /** The backups from the oldest in the window down to the newest. */
  function Older(fs: FileSystem, n: int): seq<byte>
    decreases n
  {
    if n <= 0 then [] else BytesAt(fs, Backup(n)) + Older(fs, n - 1)
  }

  /** All that the log still holds, oldest first. */
  function Kept(l: Limits, fs: FileSystem): seq<byte> {
    Older(fs, l.maxBackups) + BytesAt(fs, Current)
  }

  predicate IsSuffix(s: seq<byte>, t: seq<byte>) {
    |s| <= |t| && t[|t| - |s|..] == s
  }

  /** A file made by a rotation is within the limit, or all its bytes are those of one write. */
  predicate Bounded(l: Limits, f: File) {
    || |Concat(f.writes)| <= l.maxSize
    || (f.writes != [] && Concat(f.writes[..|f.writes| - 1]) == [])
  }

  /** The backups are numbered 1 to n without a gap, and none is outside the window. */
  ghost predicate Contiguous(l: Limits, fs: FileSystem) {
    exists n :: 0 <= n <= Max(l.maxBackups, 0) && HasBackups(fs, n)
  }

  ghost predicate HasBackups(fs: FileSystem, n: int) {
    && (forall p :: p in fs && p.Backup? ==> 1 <= p.i <= n)
    && (forall i :: 1 <= i <= n ==> Backup(i) in fs)
  }

  lemma {:induction false} OlderRotated(l: Limits, fs: FileSystem, n: int)
    requires 1 <= n <= l.maxBackups
    ensures Older(Rotated(l, fs), n) == Older(fs, n - 1) + BytesAt(fs, Current)
    decreases n
  {
    hide Rotated, Concat;
    RotatedLookup(l, fs, Backup(n));
    if n > 1 {
      OlderRotated(l, fs, n - 1);
    } else {
      assert Older(Rotated(l, fs), 0) == [];
    }
  }

  lemma {:induction false} OlderSame(fs: FileSystem, fs': FileSystem, n: int)
    requires forall i :: At(fs, Backup(i)) == At(fs', Backup(i))
    ensures Older(fs, n) == Older(fs', n)
    decreases n
  {
    if n > 0 {
      assert At(fs, Backup(n)) == At(fs', Backup(n));
      OlderSame(fs, fs', n - 1);
    }
  }

  lemma AppendKeeps(l: Limits, fs: FileSystem, p: seq<byte>)
    requires Current in fs
    ensures Kept(l, Appended(fs, p)) == Kept(l, fs) + p
  {
    ConcatSnoc(fs[Current].writes, p);
    OlderSame(fs, Appended(fs, p), l.maxBackups);
  }

  /** One write drops the oldest backup of the window, exactly when rotation is on, the current file is not empty
      and the write would take it over the limit; and nothing else. */
  lemma WriteKeepsAllBut(l: Limits, s: Log, p: seq<byte>)
    requires Valid(s) && s.isOpen
    ensures var rotates := l.maxSize > 0 && l.maxBackups > 0 && s.size > 0 && s.size + |p| > l.maxSize;
            var dropped := if rotates then BytesAt(s.fs, Backup(l.maxBackups)) else [];
            dropped + Kept(l, Wrote(l, s, p).fs) == Kept(l, s.fs) + p
  {
    hide Rotated;
    if NeedsRotation(l, s, p) {
      var n := l.maxBackups;
      OlderRotated(l, s.fs, n);
      RotatedLookup(l, s.fs, Current);
      AppendKeeps(l, Rotated(l, s.fs), p);
      assert BytesAt(s.fs, Backup(n)) + Kept(l, Rotated(l, s.fs)) == Kept(l, s.fs);
    } else {
      AppendKeeps(l, s.fs, p);
    }
  }

  /** Where a write goes: to the end of the current file, or, under the same condition, to a new one, the old one
      becoming the newest backup; all other files keep their bytes, or are moved up by one. */
  lemma WriteGoesTo(l: Limits, s: Log, p: seq<byte>)
    requires Valid(s) && s.isOpen
    ensures var s', rotates := Wrote(l, s, p), l.maxSize > 0 && l.maxBackups > 0 && s.size > 0 && s.size + |p| > l.maxSize;
            && s'.isOpen && s'.size == |BytesAt(s'.fs, Current)|
            && BytesAt(s'.fs, Current) == (if rotates then [] else BytesAt(s.fs, Current)) + p
            && (rotates ==> At(s'.fs, Backup(1)) == At(s.fs, Current))
            && (rotates ==> forall i :: 2 <= i <= l.maxBackups ==> At(s'.fs, Backup(i)) == At(s.fs, Backup(i - 1)))
            && (!rotates ==> forall i :: At(s'.fs, Backup(i)) == At(s.fs, Backup(i)))
  {
    hide Rotated, Concat;
    if NeedsRotation(l, s, p) {
      RotatedLookup(l, s.fs, Current);
      EmptyConcat(p);
      forall i | 1 <= i <= l.maxBackups
        ensures At(Wrote(l, s, p).fs, Backup(i)) == RotatedAt(l, s.fs, Backup(i))
      {
        RotatedLookup(l, s.fs, Backup(i));
      }
    } else {
      ConcatSnoc(s.fs[Current].writes, p);
    }
  }

  lemma EmptyConcat(p: seq<byte>)
    ensures Concat([] + [p]) == p && [] + p == p
  {
    ConcatSnoc([], p);
  }

  /** Only a log that rotates has files made by rotations, and those are bounded. */
  ghost predicate BoundsHold(l: Limits, fs: FileSystem) {
    forall p :: p in fs && fs[p].byRotation ==> Rotates(l) && Bounded(l, fs[p])
  }

  lemma RotatedKeepsBounds(l: Limits, fs: FileSystem)
    requires Rotates(l) && BoundsHold(l, fs)
    ensures BoundsHold(l, Rotated(l, fs))
  {
    hide Rotated;
    forall p | p in Rotated(l, fs) && Rotated(l, fs)[p].byRotation
      ensures Bounded(l, Rotated(l, fs)[p])
    {
      RotatedLookup(l, fs, p);
    }
  }

  lemma AppendKeepsBounds(l: Limits, s: Log, p: seq<byte>)
    requires Valid(s) && s.isOpen && BoundsHold(l, s.fs)
    requires !NeedsRotation(l, s, p)
    ensures BoundsHold(l, Appended(s.fs, p))
  {
    var w := s.fs[Current].writes;
    ConcatSnoc(w, p);
    assert (w + [p])[..|w|] == w;
  }

  lemma WriteKeepsBounds(l: Limits, s: Log, p: seq<byte>)
    requires Valid(s) && s.isOpen && BoundsHold(l, s.fs)
    ensures BoundsHold(l, Wrote(l, s, p).fs)
  {
    hide Rotated, Appended, BoundsHold;
    if NeedsRotation(l, s, p) {
      RotatedKeepsBounds(l, s.fs);
      RotatedLookup(l, s.fs, Current);
      AppendKeepsBounds(l, Log(Rotated(l, s.fs), 0, true), p);
    } else {
      AppendKeepsBounds(l, s, p);
    }
  }

  lemma RotatedKeepsContiguous(l: Limits, fs: FileSystem)
    requires Rotates(l) && Contiguous(l, fs) && Current in fs
    ensures Contiguous(l, Rotated(l, fs))
  {
    hide Rotated;
    var n :| 0 <= n <= Max(l.maxBackups, 0) && HasBackups(fs, n);
    var n' := Min(n + 1, l.maxBackups);
    forall i
      ensures Backup(i) in Rotated(l, fs) <==> 1 <= i <= n'
    {
      RotatedLookup(l, fs, Backup(i));
    }
    assert HasBackups(Rotated(l, fs), n');
  }

  lemma WriteKeepsContiguous(l: Limits, s: Log, p: seq<byte>)
    requires Valid(s) && s.isOpen && Contiguous(l, s.fs)
    ensures Contiguous(l, Wrote(l, s, p).fs)
  {
    hide Rotated;
    if NeedsRotation(l, s, p) {
      RotatedKeepsContiguous(l, s.fs);
      RotatedLookup(l, s.fs, Current);
      AppendKeepsContiguous(l, Rotated(l, s.fs), p);
    } else {
      AppendKeepsContiguous(l, s.fs, p);
    }
  }

  lemma AppendKeepsContiguous(l: Limits, fs: FileSystem, p: seq<byte>)
    requires Current in fs && Contiguous(l, fs)
    ensures Contiguous(l, Appended(fs, p))
  {
    var n :| 0 <= n <= Max(l.maxBackups, 0) && HasBackups(fs, n);
    assert HasBackups(Appended(fs, p), n);
  }

  datatype Op = OpWrite(p: seq<byte>) | OpClose | OpReopen

  function Do(l: Limits, s: Log, op: Op): (s': Log)
    requires Valid(s)
    ensures Valid(s')
  {
    match op
    case OpWrite(p) => Wrote(l, s, p)
    case OpClose => s.(isOpen := false)
    case OpReopen => Opened(s.fs)
  }

  function Run(l: Limits, fs0: FileSystem, ops: seq<Op>): (s: Log)
    ensures Valid(s)
  {
    if ops == [] then Opened(fs0) else Do(l, Run(l, fs0, ops[..|ops| - 1]), ops[|ops| - 1])
  }

  /** What the log held at the start, followed by every write it accepted. */
  function History(l: Limits, fs0: FileSystem, ops: seq<Op>): seq<byte> {
    if ops == [] then Kept(l, fs0)
    else
      var before, op := ops[..|ops| - 1], ops[|ops| - 1];
      History(l, fs0, before) + Accepted(Run(l, fs0, before), op)
  }

  function Accepted(s: Log, op: Op): seq<byte> {
    if op.OpWrite? && s.isOpen then op.p else []
  }

  ghost predicate Inv(l: Limits, s: Log, history: seq<byte>) {
    && IsSuffix(Kept(l, s.fs), history)
    && Contiguous(l, s.fs)
    && BoundsHold(l, s.fs)
  }

  lemma OpenKeepsInv(l: Limits, fs: FileSystem)
    requires Contiguous(l, fs) && BoundsHold(l, fs)
    ensures Kept(l, Opened(fs).fs) == Kept(l, fs)
    ensures Contiguous(l, Opened(fs).fs) && BoundsHold(l, Opened(fs).fs)
  {
    OlderSame(fs, Opened(fs).fs, l.maxBackups);
    var n :| 0 <= n <= Max(l.maxBackups, 0) && HasBackups(fs, n);
    assert HasBackups(Opened(fs).fs, n);
  }

  lemma WriteClosed(l: Limits, s: Log, op: Op)
    requires Valid(s) && (op.OpClose? || (op.OpWrite? && !s.isOpen))
    ensures Do(l, s, op).fs == s.fs
  {
  }

  lemma SuffixOfLonger(s: seq<byte>, t: seq<byte>, p: seq<byte>)
    requires IsSuffix(s, t)
    ensures forall d, k :: d + k == s + p ==> IsSuffix(k, t + p)
  {
    forall d, k | d + k == s + p
      ensures IsSuffix(k, t + p)
    {
      var u := t[..|t| - |s|];
      assert t == u + s;
      assert t + p == u + (s + p) == u + d + k;
    }
  }

  lemma DoKeepsInv(l: Limits, s: Log, op: Op, history: seq<byte>)
    requires Valid(s) && Inv(l, s, history)
    ensures Inv(l, Do(l, s, op), history + Accepted(s, op))
  {
    hide Wrote, Opened, Kept, BoundsHold, Contiguous;
    if op.OpWrite? && s.isOpen {
      WriteKeepsAllBut(l, s, op.p);
      SuffixOfLonger(Kept(l, s.fs), history, op.p);
      WriteKeepsBounds(l, s, op.p);
      WriteKeepsContiguous(l, s, op.p);
    } else if op.OpReopen? {
      OpenKeepsInv(l, s.fs);
    } else {
      WriteClosed(l, s, op);
    }
  }

  /** In every run of writes, closes and restarts over contiguous backups: the log read oldest first is a
      suffix of everything written, the backups stay contiguous and within the allowed number, and every file
      a rotation made is within the size limit or holds one write. */
  lemma {:induction false} LogIsRecentHistory(l: Limits, fs0: FileSystem, ops: seq<Op>)
    requires Contiguous(l, fs0) && BoundsHold(l, fs0)
    ensures Inv(l, Run(l, fs0, ops), History(l, fs0, ops))
    decreases |ops|
  {
    if ops == [] {
      OpenKeepsInv(l, fs0);
    } else {
      var before := ops[..|ops| - 1];
      LogIsRecentHistory(l, fs0, before);
      DoKeepsInv(l, Run(l, fs0, before), ops[|ops| - 1], History(l, fs0, before));
    }
  }
}
