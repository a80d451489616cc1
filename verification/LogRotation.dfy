/**
 The rotating log writer: size-based rotation through three older files, and what the
 files together always hold of everything that was written.
 */
module LogRotation {

  newtype Byte = x: int | 0 <= x < 256

  const MAX_LOG_SIZE: nat := 10 * 1024 * 1024
  const MAX_LOG_FILES: nat := 3

  /**
   The log files by age: 0 is `debug.log`, i is `debug.log.i`; absent files are not in
   the map. The open handle follows its file when that is renamed. A file that was
   replaced by a rename while open is `UNLINKED`.
   */
  datatype Disk = Disk(files: map<nat, seq<Byte>>, handle: nat, bytesWritten: nat)

  const UNLINKED: nat := MAX_LOG_FILES + 1

  /** Renaming fails without effect when the source is missing, and replaces the target. */
  function Rename(d: Disk, from: nat, to: nat): Disk {
    if from !in d.files then d
    else
      Disk((d.files - {from})[to := d.files[from]],
           if d.handle == from then to else if d.handle == to then UNLINKED else d.handle,
           d.bytesWritten)
  }

  /** The renames of one rotation, oldest first: n to n + 1, ..., 0 to 1. */
  function ShiftUp(d: Disk, n: nat): Disk
    decreases n
  {
    var d' := Rename(d, n, n + 1);
    if n == 0 then d' else ShiftUp(d', n - 1)
  }

  /** One rotation; `reopened` says whether the fresh file could be opened. */
  function Rotate(d: Disk, reopened: bool): Disk {
    var s := ShiftUp(d, MAX_LOG_FILES - 1);
    if !reopened then s else Disk(if 0 in s.files then s.files else s.files[0 := []], 0, 0)
  }

  function Append(d: Disk, buf: seq<Byte>): Disk {
    var files := if d.handle in d.files then d.files[d.handle := d.files[d.handle] + buf] else d.files;
    d.(files := files, bytesWritten := d.bytesWritten + |buf|)
  }

  predicate MustRotate(d: Disk, buf: seq<Byte>) {
    d.bytesWritten + |buf| >= MAX_LOG_SIZE
  }

  /** One write; `reopened` matters only if it rotates. */
  function Write(d: Disk, buf: seq<Byte>, reopened: bool): Disk {
    Append(if MustRotate(d, buf) then Rotate(d, reopened) else d, buf)
  }

  class RotatingWriter {
    var files: map<nat, seq<Byte>>
    var handle: nat
    var bytesWritten: nat

    ghost function Value(): Disk
      reads this
    {
      Disk(files, handle, bytesWritten)
    }

    /** Open the log, creating it if it is missing; the count starts at its size. */
    constructor (existing: map<nat, seq<Byte>>)
      ensures Value() == Opened(existing)
    {
      files := if 0 in existing then existing else existing[0 := []];
      handle := 0;
      bytesWritten := if 0 in existing then |existing[0]| else 0;
    }

    method RenameFile(from: nat, to: nat)
      modifies this
      ensures Value() == Rename(old(Value()), from, to)
    {
      if from in files {
        files := (files - {from})[to := files[from]];
        handle := if handle == from then to else if handle == to then UNLINKED else handle;
      }
    }

    method RotateFiles(reopened: bool)
      modifies this
      ensures Value() == Rotate(old(Value()), reopened)
    {
      var i := MAX_LOG_FILES - 1;
      while i >= 1
        invariant 0 <= i < MAX_LOG_FILES
        invariant ShiftUp(Value(), i) == ShiftUp(old(Value()), MAX_LOG_FILES - 1)
        decreases i
      {
        RenameFile(i, i + 1);
        i := i - 1;
      }
      RenameFile(0, 1);
      if reopened {
        if 0 !in files {
          files := files[0 := []];
        }
        handle, bytesWritten := 0, 0;
      }
    }

    method WriteInner(buf: seq<Byte>, reopened: bool)
      modifies this
      ensures Value() == Write(old(Value()), buf, reopened)
    {
      if bytesWritten + |buf| >= MAX_LOG_SIZE {
        RotateFiles(reopened);
      }
      if handle in files {
        files := files[handle := files[handle] + buf];
      }
      bytesWritten := bytesWritten + |buf|;
    }
  }

  function Opened(existing: map<nat, seq<Byte>>): (d: Disk)
    ensures Sane(d) && Steady(d)
    ensures d.files.Keys == existing.Keys + {0} && forall i <- d.files :: d.files[i] == if i in existing then existing[i] else []
  {
    if 0 in existing then Disk(existing, 0, |existing[0]|) else Disk(existing[0 := []], 0, 0)
  }

  // ---------------------------------------------------------------------
  // History
  // ---------------------------------------------------------------------

  function File(d: Disk, i: nat): seq<Byte> {
    if i in d.files then d.files[i] else []
  }

  /** All files, oldest first. */
  function Contents(d: Disk): seq<Byte> {
    File(d, 3) + File(d, 2) + File(d, 1) + File(d, 0)
  }

  /** The handle is on the youngest file there is. */
  predicate Sane(d: Disk) {
    d.handle <= MAX_LOG_FILES && d.handle in d.files && forall i :: 0 <= i < d.handle ==> i !in d.files
  }

  predicate IsSuffix(s: seq<Byte>, t: seq<Byte>) {
    |s| <= |t| && t[|t| - |s|..] == s
  }

  lemma SuffixAppend(s: seq<Byte>, t: seq<Byte>, buf: seq<Byte>)
    requires IsSuffix(s, t)
    ensures IsSuffix(s + buf, t + buf)
  {
    assert (t + buf)[|t| - |s|..] == t[|t| - |s|..] + buf;
  }

  lemma SuffixTrans(a: seq<Byte>, b: seq<Byte>, c: seq<Byte>)
    requires IsSuffix(a, b) && IsSuffix(b, c)
    ensures IsSuffix(a, c)
  {
    assert b[|b| - |a|..] == c[|c| - |a|..];
  }

  lemma SuffixStep(end: seq<Byte>, mid: seq<Byte>, start: seq<Byte>, buf: seq<Byte>, rest: seq<Byte>)
    requires IsSuffix(mid, start + buf) && IsSuffix(end, mid + rest)
    ensures IsSuffix(end, start + (buf + rest))
  {
    SuffixAppend(mid, start + buf, rest);
    SuffixTrans(end, mid + rest, start + buf + rest);
    assert start + buf + rest == start + (buf + rest);
  }

  /** The renames, file by file: each moves up one place, into a gap or onto the oldest. */
  lemma ShiftedFiles(d: Disk)
    requires Sane(d)
    ensures var s := ShiftUp(d, 2);
            && 0 !in s.files && s.handle in s.files && s.handle <= 3
            && s.handle == (if d.handle == 3 then 3 else d.handle + 1)
            && (forall i :: 0 <= i < s.handle ==> i !in s.files)
            && File(s, 1) == File(d, 0) && File(s, 2) == File(d, 1)
            && File(s, 3) == (if 2 in d.files then d.files[2] else File(d, 3))
            && s.bytesWritten == d.bytesWritten
  {
    var a := Rename(d, 2, 3);
    var b := Rename(a, 1, 2);
    var c := Rename(b, 0, 1);
    assert ShiftUp(a, 1) == ShiftUp(b, 0) == c;
  }

  /** A rotation loses nothing but the oldest file, whether or not the reopening works. */
  lemma RotateKeepsSuffix(d: Disk, reopened: bool)
    requires Sane(d)
    ensures Sane(Rotate(d, reopened)) && IsSuffix(Contents(Rotate(d, reopened)), Contents(d))
    ensures Contents(Rotate(d, reopened)) == (if 2 in d.files then [] else File(d, 3)) + File(d, 2) + File(d, 1) + File(d, 0)
  {
    ShiftedFiles(d);
    var r := Rotate(d, reopened);
    var kept := File(d, 2) + File(d, 1) + File(d, 0);
    if 2 in d.files {
      assert Contents(r) == kept;
      assert Contents(d) == File(d, 3) + kept;
    } else {
      assert Contents(r) == Contents(d);
    }
  }

  /** Appending to the last non-empty part appends to the whole. */
  lemma LastPart(a: seq<Byte>, b: seq<Byte>, c: seq<Byte>, d: seq<Byte>, buf: seq<Byte>)
    ensures a + b + c + (d + buf) == a + b + c + d + buf
    ensures d == [] ==> a + b + (c + buf) + d == a + b + c + d + buf
    ensures c == [] && d == [] ==> a + (b + buf) + c + d == a + b + c + d + buf
    ensures b == [] && c == [] && d == [] ==> (a + buf) + b + c + d == a + b + c + d + buf
  {
  }

  lemma AppendExtends(d: Disk, buf: seq<Byte>)
    requires Sane(d)
    ensures Sane(Append(d, buf)) && Contents(Append(d, buf)) == Contents(d) + buf
  {
    LastPart(File(d, 3), File(d, 2), File(d, 1), File(d, 0), buf);
  }

  lemma WriteKeepsSuffix(d: Disk, buf: seq<Byte>, reopened: bool)
    requires Sane(d)
    ensures Sane(Write(d, buf, reopened)) && IsSuffix(Contents(Write(d, buf, reopened)), Contents(d) + buf)
  {
    var r := if MustRotate(d, buf) then Rotate(d, reopened) else d;
    if MustRotate(d, buf) {
      RotateKeepsSuffix(d, reopened);
    }
    AppendExtends(r, buf);
    SuffixAppend(Contents(r), Contents(d), buf);
  }

  datatype Entry = Entry(buf: seq<Byte>, reopened: bool)

  function WriteAll(d: Disk, entries: seq<Entry>): Disk
    decreases |entries|
  {
    if entries == [] then d else WriteAll(Write(d, entries[0].buf, entries[0].reopened), entries[1..])
  }

  function Written(entries: seq<Entry>): seq<Byte> {
    if entries == [] then [] else entries[0].buf + Written(entries[1..])
  }

  /**
   Whatever is written, and however often reopening fails, the files from oldest to
   youngest are the end of the full history: nothing is lost from the middle and
   nothing is reordered.
   */
  lemma {:induction false} LogIsSuffixOfHistory(d: Disk, entries: seq<Entry>)
    requires Sane(d)
    ensures Sane(WriteAll(d, entries))
    ensures IsSuffix(Contents(WriteAll(d, entries)), Contents(d) + Written(entries))
    decreases |entries|
  {
    if entries != [] {
      var e, rest := entries[0], entries[1..];
      var d' := Write(d, e.buf, e.reopened);
      WriteKeepsSuffix(d, e.buf, e.reopened);
      LogIsSuffixOfHistory(d', rest);
      SuffixStep(Contents(WriteAll(d', rest)), Contents(d'), Contents(d), e.buf, Written(rest));
    }
  }

  // ---------------------------------------------------------------------
  // Size
  // ---------------------------------------------------------------------

  /** The writer is on `debug.log` and its count is right. */
  predicate Steady(d: Disk) {
    d.handle == 0 && 0 in d.files && d.bytesWritten == |d.files[0]|
  }

  predicate AllSmall(d: Disk) {
    forall i :: 0 <= i <= 3 ==> |File(d, i)| < MAX_LOG_SIZE
  }

  lemma WriteKeepsSmall(d: Disk, buf: seq<Byte>)
    requires Steady(d) && AllSmall(d) && |buf| < MAX_LOG_SIZE
    ensures Steady(Write(d, buf, true)) && AllSmall(Write(d, buf, true))
  {
    WriteShape(d, buf);
  }

  /** Where everything is after one write that could reopen. */
  lemma WriteShape(d: Disk, buf: seq<Byte>)
    requires Steady(d)
    ensures var w := Write(d, buf, true);
            && Steady(w)
            && (if MustRotate(d, buf) then
                  && File(w, 0) == buf && File(w, 1) == File(d, 0) && File(w, 2) == File(d, 1)
                  && File(w, 3) == (if 2 in d.files then File(d, 2) else File(d, 3))
                  && (2 in w.files <==> 1 in d.files) && 1 in w.files
                else
                  && File(w, 0) == File(d, 0) + buf && File(w, 1) == File(d, 1)
                  && File(w, 2) == File(d, 2) && File(w, 3) == File(d, 3)
                  && (2 in w.files <==> 2 in d.files) && (1 in w.files <==> 1 in d.files))
  {
    if MustRotate(d, buf) {
      ShiftedFiles(d);
      ShiftedPresence(d);
      assert [] + buf == buf;
    }
  }

  lemma ShiftedPresence(d: Disk)
    requires Steady(d)
    ensures var s := ShiftUp(d, 2); (2 in s.files <==> 1 in d.files) && 1 in s.files
  {
    var a := Rename(d, 2, 3);
    var b := Rename(a, 1, 2);
    assert ShiftUp(a, 1) == ShiftUp(b, 0) == Rename(b, 0, 1);
  }

  predicate AllReopened(entries: seq<Entry>) {
    forall e <- entries :: e.reopened
  }

  /** With no oversized write, disk use stays below four full files. */
  lemma {:induction false} DiskUseBounded(d: Disk, entries: seq<Entry>)
    requires Steady(d) && AllSmall(d) && AllReopened(entries)
    requires forall e <- entries :: |e.buf| < MAX_LOG_SIZE
    ensures AllSmall(WriteAll(d, entries)) && |Contents(WriteAll(d, entries))| < 4 * MAX_LOG_SIZE
    decreases |entries|
  {
    if entries != [] {
      assert entries[0] in entries && forall e <- entries[1..] :: e in entries;
      WriteKeepsSmall(d, entries[0].buf);
      DiskUseBounded(Write(d, entries[0].buf, true), entries[1..]);
    }
  }

  /** How many of the writes rotate. */
  function Rotations(d: Disk, entries: seq<Entry>): nat
    decreases |entries|
  {
    if entries == [] then 0
    else (if MustRotate(d, entries[0].buf) then 1 else 0) + Rotations(Write(d, entries[0].buf, true), entries[1..])
  }

  /** The youngest `k` neighbours in age hold a full file's worth each. */
  predicate NeighboursFull(d: Disk, k: nat) {
    && (k >= 1 ==> 1 in d.files && |File(d, 1)| + |File(d, 0)| >= MAX_LOG_SIZE)
    && (k >= 2 ==> 2 in d.files && |File(d, 2)| + |File(d, 1)| >= MAX_LOG_SIZE)
    && (k >= 3 ==> |File(d, 3)| + |File(d, 2)| >= MAX_LOG_SIZE)
  }

  lemma {:induction false} NeighboursFill(d: Disk, entries: seq<Entry>, k: nat)
    requires Steady(d) && NeighboursFull(d, k) && AllReopened(entries)
    ensures NeighboursFull(WriteAll(d, entries), k + Rotations(d, entries))
    decreases |entries|
  {
    if entries != [] {
      var e := entries[0];
      assert e in entries && forall x <- entries[1..] :: x in entries;
      WriteShape(d, e.buf);
      NeighboursFill(Write(d, e.buf, true), entries[1..], k + (if MustRotate(d, e.buf) then 1 else 0));
    }
  }

  /** After three rotations at least two full files' worth of history is always kept. */
  lemma HistoryKept(d: Disk, entries: seq<Entry>)
    requires Steady(d) && AllReopened(entries) && Rotations(d, entries) >= 3
    ensures |Contents(WriteAll(d, entries))| >= 2 * MAX_LOG_SIZE
  {
    NeighboursFill(d, entries, 0);
  }
}
