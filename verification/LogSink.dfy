/** The bounded log file: generations path.1 .. path.N behind the live file. */
module LogSink {
  import opened Types

  const PATH_BYTES: nat := 512
  const LINE_BYTES: nat := 320

  /** The files of one log by generation; 0 is the live file. */
  type Disk = map<nat, Bytes>

  function Get(d: Disk, i: nat): Bytes { if i in d then d[i] else [] }

  /** The generations from `hi` down to the live file, oldest first. */
  function Tail(d: Disk, hi: nat): Bytes {
    if hi == 0 then Get(d, 0) else Get(d, hi) + Tail(d, hi - 1)
  }

  predicate IsSuffix(part: Bytes, all: Bytes) { |part| <= |all| && all[|all| - |part|..] == part }

  /** What the files hold is the end of everything ever written; the live file is below the
      threshold, every older generation reached it with one line at most above, and there are
      no more generations than are kept. */
  ghost predicate Bounded(d: Disk, all: Bytes, maxBytes: nat, keep: nat) {
    && IsSuffix(Tail(d, keep), all)
    && 0 in d && |d[0]| < maxBytes
    && (forall i :: i in d && i > 0 ==> i <= keep && maxBytes <= |d[i]| < maxBytes + LINE_BYTES)
    && (forall i, j :: 0 < i < j && j in d ==> i in d)
  }

  // ----- shifting the generations ------------------------------------------------------------------

  function Renamed(d: Disk, from: nat, to: nat): Disk { if from in d then (d - {from})[to := d[from]] else d }

  /** `b` at index `j` is what `a` was at index `i`. */
  predicate Same(b: Disk, j: nat, a: Disk, i: nat) { (j in b <==> i in a) && (j in b ==> b[j] == a[i]) }

  /** `b` at index `j` is what `a` was one below. */
  predicate Came(b: Disk, j: nat, a: Disk)
    requires 0 < j
  {
    Same(b, j, a, j - 1)
  }

  /** The generations from `i` on are one up, and `i` is free. */
  ghost predicate Shifting(was: Disk, d: Disk, i: nat, keep: nat) {
    && i !in d
    && (forall j :: 0 <= j < i ==> Same(d, j, was, j))
    && (forall j :: i < j <= keep ==> Came(d, j, was))
    && (forall j :: keep < j ==> Same(d, j, was, j))
  }

  lemma ShiftStep(was: Disk, d: Disk, i: nat, keep: nat)
    requires 1 < i <= keep && Shifting(was, d, i, keep)
    ensures Shifting(was, Renamed(d, i - 1, i), i - 1, keep)
  {
    var after := Renamed(d, i - 1, i);
    forall j | 0 <= j < i - 1 ensures Same(after, j, was, j) {
      assert Same(d, j, was, j);
    }
    forall j | i - 1 < j <= keep ensures Came(after, j, was) {
      if i < j {
        assert Came(d, j, was);
      } else {
        assert Same(d, i - 1, was, i - 1);
      }
    }
    forall j | keep < j ensures Same(after, j, was, j) {
      assert Same(d, j, was, j);
    }
  }

  lemma ShiftEnds(was: Disk, d: Disk, keep: nat)
    requires 1 <= keep && Shifting(was, d, 1, keep)
    ensures Rotated(was, Renamed(d, 0, 1)[0 := []], keep)
  {
    var after := Renamed(d, 0, 1)[0 := []];
    forall i | 0 < i <= keep ensures Came(after, i, was) {
      if 1 < i {
        assert Came(d, i, was);
      } else {
        assert Same(d, 0, was, 0);
      }
    }
    forall i | keep < i ensures Same(after, i, was, i) {
      assert Same(d, i, was, i);
    }
  }

  /** Every generation is one up, the oldest gone, and the live file empty. */
  ghost predicate Rotated(before: Disk, after: Disk, keep: nat) {
    && 0 in after && after[0] == []
    && (forall i :: 0 < i <= keep ==> Came(after, i, before))
    && (forall i :: keep < i ==> Same(after, i, before, i))
  }

  lemma {:induction false} TailShifts(before: Disk, after: Disk, hi: nat)
    requires forall i: nat :: 0 < i <= hi ==> Get(after, i) == Get(before, i - 1)
    requires Get(after, 0) == []
    ensures Tail(after, hi) == if hi == 0 then [] else Tail(before, hi - 1)
  {
    if hi > 1 {
      TailShifts(before, after, hi - 1);
    } else if hi == 1 {
      assert Tail(after, 1) == Get(after, 1) + Tail(after, 0);
    }
  }

  lemma SuffixOfSuffix(part: Bytes, front: Bytes, all: Bytes)
    requires IsSuffix(front + part, all)
    ensures IsSuffix(part, all)
  {
    assert all[|all| - |part|..] == all[|all| - |front + part|..][|front|..];
  }

  lemma SuffixGrows(part: Bytes, all: Bytes, line: Bytes)
    requires IsSuffix(part, all)
    ensures IsSuffix(part + line, all + line)
  {
  }

  lemma {:induction false} TailAppends(d: Disk, line: Bytes, hi: nat)
    requires 0 in d
    ensures Tail(d[0 := d[0] + line], hi) == Tail(d, hi) + line
  {
    if hi > 0 {
      TailAppends(d, line, hi - 1);
    }
  }

  /** Whether sums of a size below the threshold and a line fit the program's 32-bit counter. */
  predicate Counts(maxBytes: nat) { maxBytes + LINE_BYTES <= U32 + 1 }

  /** The 32-bit sum is the real one. */
  predicate NoWrap(size: nat, len: nat) { (size + len) % U32 == size + len }

  lemma CountsExactly(maxBytes: nat)
    requires maxBytes > 0
    ensures Counts(maxBytes) <==> forall size, len :: 0 <= size < maxBytes && 0 <= len < 320 ==> NoWrap(size, len)
  {
    if !Counts(maxBytes) {
      assert !NoWrap(maxBytes - 1, LINE_BYTES - 1);
    }
  }

  class LogFile {
    const fails: nat -> bool // whether the n-th file operation fails
    const partly: nat -> nat // how much of a line still gets out when it does
    var ops: nat
    var disk: Disk
    var open: bool
    var maxBytes: nat
    var keepFiles: nat
    var currentSize: nat
    var rotations: nat
    ghost var all: Bytes     // everything written so far
    ghost var faulty: bool   // some file operation has failed

    /** The log is bounded, and the size the sink keeps is that of the live file. */
    ghost predicate Tidy() reads this {
      open && Counts(maxBytes) && 0 < maxBytes && Bounded(disk, all, maxBytes, keepFiles) && currentSize == |disk[0]|
    }

    constructor (fails: nat -> bool, partly: nat -> nat, disk: Disk, all: Bytes)
      ensures !open && !faulty && this.disk == disk && this.all == all && this.fails == fails && this.partly == partly && ops == 0
    {
      this.fails, this.partly, this.disk, this.all := fails, partly, disk, all;
      ops, open, maxBytes, keepFiles, currentSize, rotations, faulty := 0, false, 0, 0, 0, 0, false;
    }

    method Fails() returns (yes: bool)
      modifies this`ops, this`faulty
      ensures yes == fails(old(ops)) && ops == old(ops) + 1 && faulty == (old(faulty) || yes)
    {
      yes := fails(ops);
      ops := ops + 1;
      faulty := faulty || yes;
    }

    /** A rename without its source fails, which nobody minds. */
    method Rename(from: nat, to: nat)
      requires from != to
      modifies this`ops, this`faulty, this`disk
      ensures ops == old(ops) + 1 && faulty == (old(faulty) || fails(old(ops)))
      ensures disk == if fails(old(ops)) then old(disk) else Renamed(old(disk), from, to)
    {
      var failed := Fails();
      if !failed && from in disk {
        disk := (disk - {from})[to := disk[from]];
      }
    }

    /** Picks up the size of the live file, and rotates it when it is already too large. */
    method Resume() returns (st: Status)
      requires 0 in disk && open && 0 < maxBytes && rotations == 0
      modifies this`ops, this`faulty, this`disk, this`open, this`currentSize, this`rotations
      ensures old(faulty) ==> faulty
      ensures var size := if fails(old(ops)) then 0 else |old(disk)[0]| % U32;
        if size < maxBytes then st.Ok? && open && disk == old(disk) && currentSize == size && rotations == 0
        else (st.Ok? ==> open && rotations == 1 && currentSize == 0 && 0 in disk && disk[0] == [])
             && (!faulty ==> Rotated(old(disk), disk, keepFiles))
      ensures !faulty ==> st.Ok?
      ensures !faulty && Bounded(old(disk), all, maxBytes, keepFiles) && Counts(maxBytes) ==> Tidy() && disk == old(disk)
    {
      hide Bounded, Rotated;
      BoundedMeans(disk, all, maxBytes, keepFiles);
      var failed := Fails();
      currentSize := if failed then 0 else |disk[0]| % U32;
      if maxBytes <= currentSize {
        st := Rotate();
      } else {
        st := Ok;
      }
    }

    /** Opens (or creates) the live file for append, and forgets an earlier one. */
    method Open(pathLen: nat, max: nat, keep: nat) returns (st: Status)
      modifies this
      ensures pathLen == 0 || 512 <= pathLen ==> st == Err(LogIoFailed) && !open && disk == old(disk)
      ensures 0 < pathLen < 512 && fails(old(ops)) ==> st == Err(LogIoFailed) && !open && disk == old(disk)
      ensures 0 < pathLen < 512 && !fails(old(ops)) ==>
        var size := if fails(old(ops) + 1) then 0 else |Get(old(disk), 0)| % U32;
        if size < maxBytes then st.Ok? && disk == old(disk)[0 := Get(old(disk), 0)] && currentSize == size && rotations == 0
        else (st.Ok? ==> rotations == 1 && currentSize == 0)
             && (!faulty ==> Rotated(old(disk)[0 := Get(old(disk), 0)], disk, keep))
      ensures 0 < pathLen < 512 && !faulty ==> st.Ok?
      ensures st.Ok? ==> open && maxBytes == (if max == 0 then 1 else max) && keepFiles == keep
      ensures all == old(all) && (old(faulty) ==> faulty)
      ensures st.Ok? && !faulty && old(disk) == map[] && all == [] && Counts(maxBytes) ==> Tidy() && rotations == 0
      ensures st.Ok? && !faulty && Bounded(old(disk), all, maxBytes, keep) && Counts(maxBytes) ==> Tidy() && disk == old(disk)
    {
      hide Bounded, Rotated, Tail;
      FreshIsBounded(if max == 0 then 1 else max, keep);
      BoundedMeans(disk, all, if max == 0 then 1 else max, keep);
      open := false;
      if pathLen == 0 || PATH_BYTES <= pathLen {
        return Err(LogIoFailed);
      }
      maxBytes := if max == 0 then 1 else max;
      keepFiles, rotations := keep, 0;
      var failed := Fails();
      if failed {
        return Err(LogIoFailed);
      }
      if 0 !in disk {
        disk := disk[0 := []];
      }
      open := true;
      assert disk == old(disk)[0 := Get(old(disk), 0)];
      st := Resume();
    }

    /** What a failed write or flush leaves of a line in the file. */
    function Part(line: Bytes, op: nat): Bytes { if partly(op) < |line| then line[..partly(op)] else line }

    /** Appends one formatted line; an empty one stands for a formatting failure. */
    method Write(line: Bytes) returns (st: Status)
      requires |line| < LINE_BYTES
      modifies this
      ensures !old(open) || line == [] ==>
        st == Err(LogIoFailed) && disk == old(disk) && all == old(all) && (old(Tidy()) ==> Tidy()) && faulty == old(faulty)
      ensures old(faulty) ==> faulty
      ensures old(open) && line != [] && fails(old(ops)) ==>
        && st == Err(LogIoFailed) && all == old(all) + Part(line, old(ops))
        && disk == old(disk)[0 := Get(old(disk), 0) + Part(line, old(ops))]
        && currentSize == old(currentSize) && rotations == old(rotations)
        && (old(Tidy()) ==> IsSuffix(Tail(disk, keepFiles), all))
      ensures !faulty && old(Tidy()) && line != [] ==>
        && st.Ok? && Tidy() && all == old(all) + line
        && maxBytes == old(maxBytes) && keepFiles == old(keepFiles)
        && if old(currentSize) + |line| < maxBytes
           then disk == old(disk)[0 := old(disk)[0] + line] && rotations == old(rotations)
           else Rotated(old(disk)[0 := old(disk)[0] + line], disk, keepFiles) && rotations == old(rotations) + 1
    {
      hide Tail, IsSuffix;
      if !open || line == [] {
        return Err(LogIoFailed);
      }
      var op := ops;
      var failed := Fails();
      var out := if failed then Part(line, op) else line;
      disk := disk[0 := (if 0 in disk then disk[0] else []) + out];
      all := all + out;
      if old(Tidy()) {
        TailAppends(old(disk), out, keepFiles);
        SuffixGrows(Tail(old(disk), keepFiles), old(all), out);
      }
      if failed {
        return Err(LogIoFailed);
      }
      currentSize := (currentSize + |line|) % U32;
      ghost var grown := disk;
      if maxBytes <= currentSize {
        st := Rotate();
        if !faulty && old(Tidy()) {
          RotationIsBounded(grown, disk, all, maxBytes, keepFiles);
        }
      } else {
        st := Ok;
      }
    }

    /** Appends lines until one of them fails. */
    method WriteBatch(lines: seq<Bytes>) returns (written: nat)
      requires forall k :: 0 <= k < |lines| ==> |lines[k]| < LINE_BYTES
      modifies this
      ensures written <= |lines| && (old(faulty) ==> faulty)
      ensures forall k :: 0 <= k < written ==> lines[k] != []
      ensures !faulty && old(Tidy()) ==>
        && Tidy() && all == old(all) + Concat(lines[..written])
        && (written < |lines| ==> lines[written] == [])
    {
      written := 0;
      assert all + [] == all;
      while written < |lines|
        invariant written <= |lines| && (old(faulty) ==> faulty)
        invariant forall k :: 0 <= k < written ==> lines[k] != []
        invariant !faulty && old(Tidy()) ==> Tidy() && all == old(all) + Concat(lines[..written])
      {
        ConcatNext(lines, written);
        var st := Write(lines[written]);
        if st.Err? {
          return;
        }
        written := written + 1;
      }
    }

    /** Drops the oldest generation, shifts each one up in descending order, and moves the live
        file to the first. */
    method Shift()
      requires 0 < keepFiles
      modifies this`ops, this`faulty, this`disk
      ensures old(faulty) ==> faulty
      ensures !faulty ==> Rotated(old(disk), disk[0 := []], keepFiles)
    {
      hide Rotated;
      var failed := Fails();
      if !failed {
        disk := disk - {keepFiles};
      }
      var i := keepFiles;
      while i > 1
        invariant 1 <= i <= keepFiles && (old(faulty) ==> faulty)
        invariant !faulty ==> Shifting(old(disk), disk, i, keepFiles)
      {
        if !faulty {
          ShiftStep(old(disk), disk, i, keepFiles);
        }
        Rename(i - 1, i);
        i := i - 1;
      }
      if !faulty {
        ShiftEnds(old(disk), disk, keepFiles);
      }
      Rename(0, 1);
    }

    /** Moves every generation up by one and starts the live file afresh. */
    method Rotate() returns (st: Status)
      modifies this`ops, this`faulty, this`disk, this`open, this`currentSize, this`rotations
      ensures old(faulty) ==> faulty
      ensures 0 < ops && (st.Ok? <==> !fails(ops - 1))
      ensures st.Ok? ==> open && 0 in disk && disk[0] == [] && currentSize == 0 && rotations == old(rotations) + 1
      ensures st.Err? ==> st == Err(LogIoFailed) && !open && currentSize == old(currentSize) && rotations == old(rotations)
      ensures !faulty ==> st.Ok? && Rotated(old(disk), disk, keepFiles)
    {
      open := false;
      if keepFiles > 0 {
        Shift();
      }
      var failed := Fails();
      if failed {
        return Err(LogIoFailed);
      }
      disk := disk[0 := []];
      open := true;
      currentSize := 0;
      rotations := rotations + 1;
      st := Ok;
    }
  }

  function Concat(lines: seq<Bytes>): Bytes {
    if lines == [] then [] else Concat(lines[..|lines| - 1]) + lines[|lines| - 1]
  }

  lemma ConcatNext(lines: seq<Bytes>, k: nat)
    requires k < |lines|
    ensures Concat(lines[..k + 1]) == Concat(lines[..k]) + lines[k]
  {
    assert lines[..k + 1][..k] == lines[..k];
  }

  lemma {:induction false} EmptyTail(hi: nat)
    ensures Tail(map[0 := []], hi) == []
  {
    if hi > 0 {
      EmptyTail(hi - 1);
    }
  }

  lemma FreshIsBounded(maxBytes: nat, keep: nat)
    requires 0 < maxBytes
    ensures Bounded(map[0 := []], [], maxBytes, keep)
  {
    EmptyTail(keep);
  }

  lemma BoundedMeans(d: Disk, all: Bytes, maxBytes: nat, keep: nat)
    ensures Bounded(d, all, maxBytes, keep) ==> 0 in d && |d[0]| < maxBytes && d[0 := d[0]] == d
  {
  }

  /** Rotating a full live file keeps the log bounded: what falls off is the oldest part. */
  lemma RotationIsBounded(before: Disk, after: Disk, all: Bytes, maxBytes: nat, keep: nat)
    requires Rotated(before, after, keep) && 0 < maxBytes
    requires IsSuffix(Tail(before, keep), all) && 0 in before && maxBytes <= |before[0]| < maxBytes + LINE_BYTES
    requires forall i :: i in before && i > 0 ==> i <= keep && maxBytes <= |before[i]| < maxBytes + LINE_BYTES
    requires forall i, j :: 0 < i < j && j in before ==> i in before
    ensures Bounded(after, all, maxBytes, keep)
  {
    forall i: nat | 0 < i <= keep ensures Get(after, i) == Get(before, i - 1) {
      assert Came(after, i, before);
    }
    TailShifts(before, after, keep);
    if keep == 0 {
      assert IsSuffix([], all);
    } else {
      SuffixOfSuffix(Tail(before, keep - 1), Get(before, keep), all);
    }
    forall i | keep < i ensures i !in after {
      assert Same(after, i, before, i);
    }
    forall i | i in after && i > 0 ensures maxBytes <= |after[i]| < maxBytes + LINE_BYTES {
      assert Came(after, i, before);
    }
    forall i, j | 0 < i < j && j in after ensures i in after {
      assert Came(after, j, before) && Came(after, i, before);
    }
  }
}
