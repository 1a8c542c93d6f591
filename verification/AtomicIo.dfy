/**
  `atomic_write_bytes` of tinyagentos/atomic_io.py over a disk that may lose power between
  any two system calls.  Every call may fail, and a write may be short.
*/
module AtomicIo {
  import opened Wrappers
  import opened CrashDisks

  datatype Errno = EEXIST | EINVAL | ENOTSUP | EOPNOTSUPP | EBADF | OtherError

  // ---- system calls on values ------------------------------------------------------------

  function Created(d: Disk, name: Name, i: Inode, mode: Mode): Disk {
    d.(files := d.files[i := File([], false, mode)],
       dir := d.dir[name := i],
       pending := d.pending + [Create(name, i)])
  }

  function Written(d: Disk, i: Inode, chunk: seq<Byte>): Disk
    requires i in d.files
  {
    d.(files := d.files[i := d.files[i].(bytes := d.files[i].bytes + chunk, clean := false)])
  }

  function Synced(d: Disk, i: Inode): Disk
    requires i in d.files
  {
    d.(files := d.files[i := d.files[i].(clean := true)])
  }

  function Chmodded(d: Disk, i: Inode, mode: Mode): Disk
    requires i in d.files
  {
    d.(files := d.files[i := d.files[i].(mode := mode)])
  }

  function Renamed(d: Disk, from: Name, to: Name): Disk
    requires from in d.dir
  {
    var op := Rename(from, to, d.dir[from]);
    d.(dir := ApplyOp(d.dir, op), pending := d.pending + [op])
  }

  function Unlinked(d: Disk, name: Name): Disk {
    d.(dir := d.dir - {name}, pending := d.pending + [Remove(name)])
  }

  function DirSynced(d: Disk): Disk {
    d.(durable := d.dir, pending := [])
  }

  // ---- what each call keeps --------------------------------------------------------------

  /** What a power loss may leave under the target, and what it shows now. */
  ghost predicate Steady(d: Disk, target: Name, olds: Outcomes, shown: Option<seq<Byte>>) {
    WellFormed(d) && Covered(d, target, olds) && Contents(d, target) == shown
  }

  /** Inode `i` is not the target's, whatever survives. */
  ghost predicate Apart(d: Disk, target: Name, i: Inode) {
    && Lookup(d.dir, target) != Some(i)
    && forall kept: seq<bool> :: |kept| == |d.pending| ==>
      Lookup(Replay(d.durable, d.pending, kept), target) != Some(i)
  }

  lemma NewInodeIsApart(d: Disk, target: Name, olds: Outcomes, i: Inode)
    requires WellFormed(d) && Covered(d, target, olds) && i !in d.files
    ensures Apart(d, target, i)
  {
    forall kept: seq<bool> | |kept| == |d.pending|
      ensures Lookup(Replay(d.durable, d.pending, kept), target) != Some(i)
    {
      assert Shows(d, Lookup(Replay(d.durable, d.pending, kept), target), olds);
    }
  }

  /** A change that does not touch the target leaves every replay of it as it was. */
  lemma UntouchedReplay(d: Disk, op: DirOp, target: Name, kept: seq<bool>)
    requires !Touches(op, target) && |kept| == |d.pending| + 1
    ensures Lookup(Replay(d.durable, d.pending + [op], kept), target)
         == Lookup(Replay(d.durable, d.pending, kept[..|d.pending|]), target)
  {
    ReplayLast(d.durable, d.pending, op, kept);
  }

  lemma CreatedShows(d: Disk, name: Name, i: Inode, mode: Mode, target: Name, olds: Outcomes, kept: seq<bool>)
    requires Covered(d, target, olds) && name != target && i !in d.files && Apart(d, target, i)
    requires |kept| == |d.pending| + 1
    ensures var d' := Created(d, name, i, mode);
      && Shows(d', Lookup(Replay(d'.durable, d'.pending, kept), target), olds)
      && Lookup(Replay(d'.durable, d'.pending, kept), target) != Some(i)
  {
    UntouchedReplay(d, Create(name, i), target, kept);
    assert Shows(d, Lookup(Replay(d.durable, d.pending, kept[..|d.pending|]), target), olds);
  }

  lemma CreatedIsWellFormed(d: Disk, name: Name, i: Inode, mode: Mode)
    requires WellFormed(d) && i !in d.files
    ensures WellFormed(Created(d, name, i, mode))
  {
    ReplayAllThenOne(d.durable, d.pending, Create(name, i));
  }

  lemma CreatedKeeps(d: Disk, name: Name, i: Inode, mode: Mode, target: Name, olds: Outcomes,
                     shown: Option<seq<Byte>>)
    requires Steady(d, target, olds, shown) && name != target && i !in d.files
    ensures Steady(Created(d, name, i, mode), target, olds, shown) && Apart(Created(d, name, i, mode), target, i)
  {
    var d' := Created(d, name, i, mode);
    CreatedIsWellFormed(d, name, i, mode);
    NewInodeIsApart(d, target, olds, i);
    forall kept: seq<bool> | |kept| == |d'.pending|
      ensures Shows(d', Lookup(Replay(d'.durable, d'.pending, kept), target), olds)
      ensures Lookup(Replay(d'.durable, d'.pending, kept), target) != Some(i)
    {
      CreatedShows(d, name, i, mode, target, olds, kept);
    }
  }

  lemma FileKeeps(d: Disk, i: Inode, f: File, target: Name, olds: Outcomes, shown: Option<seq<Byte>>)
    requires Steady(d, target, olds, shown) && i in d.files && Apart(d, target, i)
    ensures var d' := d.(files := d.files[i := f]);
      Steady(d', target, olds, shown) && Apart(d', target, i)
  {
    var d' := d.(files := d.files[i := f]);
    forall kept: seq<bool> | |kept| == |d'.pending|
      ensures Shows(d', Lookup(Replay(d'.durable, d'.pending, kept), target), olds)
    {
      assert Shows(d, Lookup(Replay(d.durable, d.pending, kept), target), olds);
    }
  }

  lemma UnlinkedKeeps(d: Disk, name: Name, target: Name, olds: Outcomes, shown: Option<seq<Byte>>)
    requires Steady(d, target, olds, shown) && name != target
    ensures Steady(Unlinked(d, name), target, olds, shown)
  {
    var d' := Unlinked(d, name);
    ReplayAllThenOne(d.durable, d.pending, Remove(name));
    forall kept: seq<bool> | |kept| == |d'.pending|
      ensures Shows(d', Lookup(Replay(d'.durable, d'.pending, kept), target), olds)
    {
      UntouchedReplay(d, Remove(name), target, kept);
      assert Shows(d, Lookup(Replay(d.durable, d.pending, kept[..|d.pending|]), target), olds);
    }
  }

  /** Every copy of `name` that the running kernel shows is synced. */
  predicate CleanNow(d: Disk, name: Name) {
    name in d.dir ==> d.dir[name] in d.files && d.files[d.dir[name]].clean
  }

  /** The rename of a synced file adds its bytes to what a power loss may leave, and nothing else. */
  lemma RenamedAdds(d: Disk, tmp: Name, target: Name, olds: Outcomes, shown: Option<seq<Byte>>,
                    data: seq<Byte>)
    requires Steady(d, target, olds, shown) && tmp != target && tmp in d.dir
    requires d.files[d.dir[tmp]].clean && d.files[d.dir[tmp]].bytes == data
    ensures Steady(Renamed(d, tmp, target), target, olds + iset{Some(data)}, Some(data))
    ensures CleanNow(Renamed(d, tmp, target), target)
  {
    var d' := Renamed(d, tmp, target);
    var op := Rename(tmp, target, d.dir[tmp]);
    ReplayAllThenOne(d.durable, d.pending, op);
    forall kept: seq<bool> | |kept| == |d'.pending|
      ensures Shows(d', Lookup(Replay(d'.durable, d'.pending, kept), target), olds + iset{Some(data)})
    {
      ReplayLast(d.durable, d.pending, op, kept);
      assert Shows(d, Lookup(Replay(d.durable, d.pending, kept[..|d.pending|]), target), olds);
    }
  }

  lemma AllKept(d: Disk, after: map<Name, seq<Byte>>)
    requires WellFormed(d) && after.Keys == d.dir.Keys
    requires forall n :: n in d.dir && d.files[d.dir[n]].clean ==> after[n] == d.files[d.dir[n]].bytes
    ensures MayCrashTo(d, after)
  {
    assert ImageOf(d, seq(|d.pending|, k => true), after);
  }

  lemma RenamedIsWellFormed(d: Disk, tmp: Name, target: Name)
    requires WellFormed(d) && tmp in d.dir
    ensures WellFormed(Renamed(d, tmp, target))
  {
    ReplayAllThenOne(d.durable, d.pending, Rename(tmp, target, d.dir[tmp]));
  }

  /** Why the sync comes first: a rename of an unsynced file may come back with any bytes at all. */
  lemma UnsyncedRenameMayTear(d: Disk, tmp: Name, target: Name, torn: seq<Byte>)
    requires WellFormed(d) && tmp in d.dir && !d.files[d.dir[tmp]].clean
    ensures Some(torn) in Left(Renamed(d, tmp, target), target)
  {
    var d' := Renamed(d, tmp, target);
    RenamedIsWellFormed(d, tmp, target);
    var after := map n | n in d'.dir :: if n == target then torn else d'.files[d'.dir[n]].bytes;
    AllKept(d', after);
    assert Lookup(after, target) == Some(torn);
  }

  /** Once the directory is synced, what the target shows is what any power loss leaves, if its file is synced. */
  lemma DirSyncedSettles(d: Disk, target: Name)
    requires WellFormed(d) && CleanNow(d, target)
    ensures Steady(DirSynced(d), target, iset{Contents(d, target)}, Contents(d, target)) && Settled(DirSynced(d), target)
  {
    assert forall kept: seq<bool> :: |kept| == 0 ==> Replay(d.dir, [], kept) == d.dir;
  }

  // ---- the running system ----------------------------------------------------------------

  /** The bits of `st_mode & 0o777`. */
  const PERMISSION_BITS: Mode := {0, 1, 2, 3, 4, 5, 6, 7, 8}

  /** 0o666: everyone may read and write. */
  const DEFAULT_MODE: Mode := {1, 2, 4, 5, 7, 8}

  /** What the file may be created to: the mode asked for, else the one it has, else the default. */
  function WantedMode(d: Disk, target: Name, mode: Option<Mode>): Mode {
    match mode
    case Some(m) => m
    case None =>
      if target in d.dir && d.dir[target] in d.files
      then d.files[d.dir[target]].mode * PERMISSION_BITS
      else DEFAULT_MODE
  }

  function LowNine(mode: Mode): (r: Mode)
    ensures forall b :: b in r <==> b in mode && b < 9
  {
    set b | b in mode && b < 9
  }

  lemma LowNineIsMasked(d: Disk, target: Name)
    ensures target in d.dir && d.dir[target] in d.files ==>
      WantedMode(d, target, None) == LowNine(d.files[d.dir[target]].mode)
  {
  }

  /** `.name.tmp` and sixteen random hexadecimal digits. */
  function TempName(name: Name, suffix: string): Name {
    "." + name + ".tmp" + suffix
  }

  lemma TempNameDiffers(name: Name, suffix: string)
    ensures TempName(name, suffix) != name
  {
    assert |TempName(name, suffix)| > |name|;
  }

  /** Two writers share a temporary file only if they drew the same digits. */
  lemma WritersDoNotShare(name: Name, suffix: string, other: string)
    ensures TempName(name, suffix) == TempName(name, other) ==> suffix == other
  {
    var k := |name| + 5;
    assert TempName(name, suffix)[k..] == suffix && TempName(name, other)[k..] == other;
  }

  function WithError<T>(errors: seq<Errno>, r: Result<T, Errno>): seq<Errno> {
    if r.Failure? then errors + [r.error] else errors
  }

  /** The kernel's side: each call may fail, and `log` keeps every state the disk was in. */
  class Kernel {
    var disk: Disk
    var nextInode: Inode
    const umask: Mode
    ghost var log: seq<Disk>
    ghost var errors: seq<Errno>    // history: of the calls that failed, other than unlink
    ghost var unlinked: seq<Name>   // history: the names unlink was called with

    ghost predicate Valid()
      reads this
    {
      WellFormed(disk) && forall i :: i in disk.files ==> i < nextInode
    }

    method OpenExclusive(name: Name, mode: Mode) returns (r: Result<Inode, Errno>)
      requires Valid()
      modifies this`disk, this`nextInode, this`log, this`errors
      ensures Valid() && log == old(log) + [disk] && errors == WithError(old(errors), r)
      ensures r.Failure? ==> disk == old(disk)
      ensures name in old(disk.dir) ==> r == Failure(EEXIST)
      ensures r.Success? ==> name !in old(disk.dir) && r.value !in old(disk.files)
      ensures r.Success? ==> disk == Created(old(disk), name, r.value, mode - umask)
    {
      if name in disk.dir {
        r := Failure(EEXIST);
      } else if * {
        r := Failure(OtherError);
      } else {
        ReplayAllThenOne(disk.durable, disk.pending, Create(name, nextInode));
        disk := Created(disk, name, nextInode, mode - umask);
        r := Success(nextInode);
        nextInode := nextInode + 1;
      }
      log, errors := log + [disk], WithError(errors, r);
    }

    /** Accepts at least one of the bytes it is given, as POSIX promises for a regular file. */
    method Write(i: Inode, view: seq<Byte>) returns (r: Result<nat, Errno>)
      requires Valid() && i in disk.files && view != []
      modifies this`disk, this`nextInode, this`log, this`errors
      ensures Valid() && log == old(log) + [disk] && errors == WithError(old(errors), r)
      ensures r.Failure? ==> disk == old(disk)
      ensures r.Success? ==> 1 <= r.value <= |view| && disk == Written(old(disk), i, view[..r.value])
    {
      if * {
        r := Failure(OtherError);
      } else {
        var n: nat :| 1 <= n <= |view|;
        disk := Written(disk, i, view[..n]);
        r := Success(n);
      }
      log, errors := log + [disk], WithError(errors, r);
    }

    method Fsync(i: Inode) returns (r: Result<(), Errno>)
      requires Valid() && i in disk.files
      modifies this`disk, this`nextInode, this`log, this`errors
      ensures Valid() && log == old(log) + [disk] && errors == WithError(old(errors), r)
      ensures disk == if r.Success? then Synced(old(disk), i) else old(disk)
    {
      if * {
        r := Failure(OtherError);
      } else {
        disk := Synced(disk, i);
        r := Success(());
      }
      log, errors := log + [disk], WithError(errors, r);
    }

    method Chmod(i: Inode, mode: Mode) returns (r: Result<(), Errno>)
      requires Valid() && i in disk.files
      modifies this`disk, this`nextInode, this`log, this`errors
      ensures Valid() && log == old(log) + [disk] && errors == WithError(old(errors), r)
      ensures disk == if r.Success? then Chmodded(old(disk), i, mode) else old(disk)
    {
      if * {
        r := Failure(OtherError);
      } else {
        disk := Chmodded(disk, i, mode);
        r := Success(());
      }
      log, errors := log + [disk], WithError(errors, r);
    }

    method Replace(from: Name, to: Name) returns (r: Result<(), Errno>)
      requires Valid() && from in disk.dir
      modifies this`disk, this`nextInode, this`log, this`errors
      ensures Valid() && log == old(log) + [disk] && errors == WithError(old(errors), r)
      ensures disk == if r.Success? then Renamed(old(disk), from, to) else old(disk)
    {
      if * {
        r := Failure(OtherError);
      } else {
        ReplayAllThenOne(disk.durable, disk.pending, Rename(from, to, disk.dir[from]));
        disk := Renamed(disk, from, to);
        r := Success(());
      }
      log, errors := log + [disk], WithError(errors, r);
    }

    method Unlink(name: Name) returns (gone: bool)
      requires Valid()
      modifies this`disk, this`log, this`unlinked
      ensures Valid() && log == old(log) + [disk] && unlinked == old(unlinked) + [name]
      ensures disk == if gone then Unlinked(old(disk), name) else old(disk)
    {
      gone := false;
      if name in disk.dir {
        if * {
          gone := true;
          ReplayAllThenOne(disk.durable, disk.pending, Remove(name));
          disk := Unlinked(disk, name);
        }
      }
      log, unlinked := log + [disk], unlinked + [name];
    }

    method FsyncDir() returns (r: Result<(), Errno>)
      requires Valid()
      modifies this`disk, this`nextInode, this`log, this`errors
      ensures Valid() && log == old(log) + [disk] && errors == WithError(old(errors), r)
      ensures disk == if r.Success? then DirSynced(old(disk)) else old(disk)
    {
      if * {
        var e: Errno := *;
        r := Failure(e);
      } else {
        disk := DirSynced(disk);
        r := Success(());
      }
      log, errors := log + [disk], WithError(errors, r);
    }
  }

  datatype Ending =
    | Durable           // returned, and the directory was synced
    | NotSyncable       // returned, on a filesystem that cannot sync a directory
    | RaisedBefore(e: Errno)
    | RaisedAfter(e: Errno)  // the rename happened, the directory sync failed

  /** The error that decides how a call ends is the one that a system call failed with, if any did. */
  predicate EndsAfter(ending: Ending, before: seq<Errno>, errors: seq<Errno>) {
    match ending
    case Durable => errors == before
    case NotSyncable => exists e :: e in {EINVAL, ENOTSUP, EOPNOTSUPP, EBADF} && errors == before + [e]
    case RaisedBefore(e) => errors == before + [e]
    case RaisedAfter(e) => e !in {EINVAL, ENOTSUP, EOPNOTSUPP, EBADF} && errors == before + [e]
  }

  function WithRaised(errors: seq<Errno>, failure: Option<Errno>): seq<Errno> {
    if failure.Some? then errors + [failure.value] else errors
  }

  /** In every state logged since `from` a power loss leaves the target with one of `allowed`. */
  ghost predicate SafeSince(log: seq<Disk>, from: nat, target: Name, allowed: Outcomes) {
    forall k :: from <= k < |log| ==> CrashLeaves(log[k], target, allowed)
  }

  /** No state logged since `from` shows the temporary file wider than `wanted`. */
  predicate NarrowSince(log: seq<Disk>, from: nat, tmp: Name, wanted: Mode) {
    forall k :: from <= k < |log| && tmp in log[k].dir && log[k].dir[tmp] in log[k].files
      ==> log[k].files[log[k].dir[tmp]].mode <= wanted
  }

  /** The permission bits shown under `name`. */
  function ModeOf(d: Disk, name: Name): Option<Mode> {
    if name in d.dir && d.dir[name] in d.files then Some(d.files[d.dir[name]].mode) else None
  }

  lemma SteadyIsSafe(d: Disk, target: Name, olds: Outcomes, shown: Option<seq<Byte>>, allowed: Outcomes)
    requires Steady(d, target, olds, shown) && olds <= allowed
    ensures CrashLeaves(d, target, allowed)
  {
    CoveredSurvives(d, target, olds);
  }

  /** Every state logged since `before` is safe for the target and shows no wide temporary file. */
  ghost predicate Guarded(log: seq<Disk>, before: seq<Disk>, target: Name, tmp: Name, allowed: Outcomes, wanted: Mode) {
    before <= log && SafeSince(log, |before|, target, allowed) && NarrowSince(log, |before|, tmp, wanted)
  }

  lemma LogGrows(log: seq<Disk>, d: Disk, before: seq<Disk>, target: Name, tmp: Name, allowed: Outcomes, wanted: Mode)
    requires Guarded(log, before, target, tmp, allowed, wanted)
    requires CrashLeaves(d, target, allowed)
    requires ModeOf(d, tmp).Some? ==> ModeOf(d, tmp).value <= wanted
    ensures Guarded(log + [d], before, target, tmp, allowed, wanted)
  {
  }

  /** The temporary file is on disk under its own name, and the target is as it was. */
  ghost predicate Prepared(d: Disk, target: Name, tmp: Name, fd: Inode, olds: Outcomes, shown: Option<seq<Byte>>) {
    && Steady(d, target, olds, shown) && Apart(d, target, fd) && tmp != target
    && tmp in d.dir && d.dir[tmp] == fd && fd in d.files
  }

  method OpenTemp(kernel: Kernel, target: Name, tmp: Name, wanted: Mode, ghost olds: Outcomes,
                  ghost shown: Option<seq<Byte>>)
    returns (created: Result<Inode, Errno>)
    requires kernel.Valid() && Steady(kernel.disk, target, olds, shown) && tmp != target
    modifies kernel`disk, kernel`nextInode, kernel`log, kernel`errors
    ensures kernel.errors == WithError(old(kernel.errors), created)
    ensures kernel.Valid() && kernel.log == old(kernel.log) + [kernel.disk]
    ensures Steady(kernel.disk, target, olds, shown)
    ensures created.Failure? ==> kernel.disk == old(kernel.disk)
    ensures tmp in old(kernel.disk.dir) ==> created == Failure(EEXIST)
    ensures created.Success? ==> Prepared(kernel.disk, target, tmp, created.value, olds, shown)
    ensures created.Success? ==> kernel.disk.files[created.value] == File([], false, wanted - kernel.umask)
  {
    ghost var d := kernel.disk;
    created := kernel.OpenExclusive(tmp, wanted);
    if created.Success? {
      CreatedKeeps(d, tmp, created.value, wanted - kernel.umask, target, olds, shown);
    }
  }

  /** Open, write, sync, close, chmod and rename; the `try` block of the source. */
  method WriteAndRename(kernel: Kernel, target: Name, tmp: Name, data: seq<Byte>, wanted: Mode, chmods: bool,
                        ghost olds: Outcomes, ghost shown: Option<seq<Byte>>, ghost allowed: Outcomes)
    returns (failure: Option<Errno>)
    requires kernel.Valid() && Steady(kernel.disk, target, olds, shown) && tmp != target
    requires allowed == olds + iset{Some(data)}
    modifies kernel`disk, kernel`nextInode, kernel`log, kernel`errors
    ensures kernel.errors == WithRaised(old(kernel.errors), failure)
    ensures kernel.Valid() && old(kernel.log) <= kernel.log
    ensures SafeSince(kernel.log, |old(kernel.log)|, target, allowed)
    ensures tmp !in old(kernel.disk.dir) ==> NarrowSince(kernel.log, |old(kernel.log)|, tmp, wanted)
    ensures tmp in old(kernel.disk.dir) ==> failure == Some(EEXIST) && kernel.disk == old(kernel.disk)
    ensures failure.Some? ==> Steady(kernel.disk, target, olds, shown)
    ensures failure.Some? && tmp !in old(kernel.disk.dir) ==>
      ModeOf(kernel.disk, tmp).None? || ModeOf(kernel.disk, tmp).value <= wanted
    ensures failure.None? ==> Steady(kernel.disk, target, allowed, Some(data)) && CleanNow(kernel.disk, target)
    ensures failure.None? ==> tmp !in old(kernel.disk.dir) && tmp !in kernel.disk.dir
    ensures failure.None? ==>
      ModeOf(kernel.disk, target) == Some(if chmods then wanted else wanted - kernel.umask)
  {
    ghost var before := kernel.log;
    var created := OpenTemp(kernel, target, tmp, wanted, olds, shown);
    SteadyIsSafe(kernel.disk, target, olds, shown, allowed);
    if created.Failure? {
      return Some(created.error);
    }
    LogGrows(before, kernel.disk, before, target, tmp, allowed, wanted);
    failure := WriteAndSync(kernel, target, tmp, created.value, data, wanted, olds, shown, allowed, before);
    if failure.None? {
      failure := ChmodAndRename(kernel, target, tmp, created.value, data, wanted, chmods, olds, shown, allowed, before);
    }
  }

  method ChmodFile(kernel: Kernel, target: Name, tmp: Name, fd: Inode, wanted: Mode, ghost olds: Outcomes,
                   ghost shown: Option<seq<Byte>>)
    returns (failure: Option<Errno>)
    requires kernel.Valid() && Prepared(kernel.disk, target, tmp, fd, olds, shown)
    requires kernel.disk.files[fd].mode <= wanted
    modifies kernel`disk, kernel`nextInode, kernel`log, kernel`errors
    ensures kernel.errors == WithRaised(old(kernel.errors), failure)
    ensures kernel.Valid() && kernel.log == old(kernel.log) + [kernel.disk]
    ensures Prepared(kernel.disk, target, tmp, fd, olds, shown)
    ensures kernel.disk == if failure.None? then Chmodded(old(kernel.disk), fd, wanted) else old(kernel.disk)
  {
    FileKeeps(kernel.disk, fd, kernel.disk.files[fd].(mode := wanted), target, olds, shown);
    var chmodded := kernel.Chmod(fd, wanted);
    return if chmodded.Failure? then Some(chmodded.error) else None;
  }

  method RenameFile(kernel: Kernel, target: Name, tmp: Name, data: seq<Byte>, ghost olds: Outcomes,
                    ghost shown: Option<seq<Byte>>, ghost allowed: Outcomes)
    returns (failure: Option<Errno>)
    requires kernel.Valid() && Steady(kernel.disk, target, olds, shown) && tmp != target && tmp in kernel.disk.dir
    requires kernel.disk.files[kernel.disk.dir[tmp]].bytes == data && kernel.disk.files[kernel.disk.dir[tmp]].clean
    requires allowed == olds + iset{Some(data)}
    modifies kernel`disk, kernel`nextInode, kernel`log, kernel`errors
    ensures kernel.errors == WithRaised(old(kernel.errors), failure)
    ensures kernel.Valid() && kernel.log == old(kernel.log) + [kernel.disk]
    ensures CrashLeaves(kernel.disk, target, allowed)
    ensures kernel.disk == if failure.None? then Renamed(old(kernel.disk), tmp, target) else old(kernel.disk)
    ensures failure.None? ==> Steady(kernel.disk, target, allowed, Some(data)) && CleanNow(kernel.disk, target)
  {
    RenamedAdds(kernel.disk, tmp, target, olds, shown, data);
    var replaced := kernel.Replace(tmp, target);
    if replaced.Failure? {
      SteadyIsSafe(kernel.disk, target, olds, shown, allowed);
      return Some(replaced.error);
    }
    SteadyIsSafe(kernel.disk, target, allowed, Some(data), allowed);
    return None;
  }

  lemma RenamedModes(d: Disk, tmp: Name, target: Name)
    requires WellFormed(d) && tmp in d.dir && tmp != target
    ensures var d' := Renamed(d, tmp, target);
      ModeOf(d', tmp).None? && tmp !in d'.dir && ModeOf(d', target) == ModeOf(d, tmp)
  {
  }

  method ChmodAndRename(kernel: Kernel, target: Name, tmp: Name, fd: Inode, data: seq<Byte>, wanted: Mode,
                        chmods: bool, ghost olds: Outcomes, ghost shown: Option<seq<Byte>>,
                        ghost allowed: Outcomes, ghost before: seq<Disk>)
    returns (failure: Option<Errno>)
    requires kernel.Valid() && Prepared(kernel.disk, target, tmp, fd, olds, shown)
    requires kernel.disk.files[fd] == File(data, true, wanted - kernel.umask)
    requires allowed == olds + iset{Some(data)} && Guarded(kernel.log, before, target, tmp, allowed, wanted)
    modifies kernel`disk, kernel`nextInode, kernel`log, kernel`errors
    ensures kernel.errors == WithRaised(old(kernel.errors), failure)
    ensures kernel.Valid() && Guarded(kernel.log, before, target, tmp, allowed, wanted)
    ensures failure.Some? ==> Steady(kernel.disk, target, olds, shown)
    ensures failure.Some? ==> ModeOf(kernel.disk, tmp).Some? && ModeOf(kernel.disk, tmp).value <= wanted
    ensures failure.None? ==> Steady(kernel.disk, target, allowed, Some(data)) && CleanNow(kernel.disk, target)
    ensures failure.None? ==> tmp !in kernel.disk.dir
    ensures failure.None? ==>
      ModeOf(kernel.disk, target) == Some(if chmods then wanted else wanted - kernel.umask)
  {
    ghost var log := kernel.log;
    if chmods {
      failure := ChmodFile(kernel, target, tmp, fd, wanted, olds, shown);
      SteadyIsSafe(kernel.disk, target, olds, shown, allowed);
      LogGrows(log, kernel.disk, before, target, tmp, allowed, wanted);
      if failure.Some? {
        return;
      }
    }
    log := kernel.log;
    RenamedModes(kernel.disk, tmp, target);
    failure := RenameFile(kernel, target, tmp, data, olds, shown, allowed);
    LogGrows(log, kernel.disk, before, target, tmp, allowed, wanted);
  }

  /** One turn of the short-write loop. */
  method WriteChunk(kernel: Kernel, target: Name, tmp: Name, fd: Inode, view: seq<Byte>, wanted: Mode,
                    ghost olds: Outcomes, ghost shown: Option<seq<Byte>>, ghost allowed: Outcomes, ghost before: seq<Disk>)
    returns (rest: Result<seq<Byte>, Errno>)
    requires kernel.Valid() && Prepared(kernel.disk, target, tmp, fd, olds, shown) && view != []
    requires kernel.disk.files[fd].mode <= wanted && olds <= allowed
    requires Guarded(kernel.log, before, target, tmp, allowed, wanted)
    modifies kernel`disk, kernel`nextInode, kernel`log, kernel`errors
    ensures kernel.errors == WithError(old(kernel.errors), rest)
    ensures kernel.Valid() && Guarded(kernel.log, before, target, tmp, allowed, wanted)
    ensures Prepared(kernel.disk, target, tmp, fd, olds, shown)
    ensures kernel.disk.files[fd].mode == old(kernel.disk.files[fd].mode)
    ensures rest.Success? ==>
      |rest.value| < |view| && kernel.disk.files[fd].bytes + rest.value == old(kernel.disk.files[fd].bytes) + view
  {
    ghost var d := kernel.disk;
    var written := kernel.Write(fd, view);
    FileKeeps(d, fd, kernel.disk.files[fd], target, olds, shown);
    assert kernel.disk == d.(files := d.files[fd := kernel.disk.files[fd]]);
    SteadyIsSafe(kernel.disk, target, olds, shown, allowed);
    LogGrows(old(kernel.log), kernel.disk, before, target, tmp, allowed, wanted);
    if written.Failure? {
      return Failure(written.error);
    }
    Regroup(d.files[fd].bytes, view[..written.value], view[written.value..]);
    assert view[..written.value] + view[written.value..] == view;
    return Success(view[written.value..]);
  }

  method SyncFile(kernel: Kernel, target: Name, tmp: Name, fd: Inode, wanted: Mode, ghost olds: Outcomes,
                  ghost shown: Option<seq<Byte>>, ghost allowed: Outcomes, ghost before: seq<Disk>)
    returns (failure: Option<Errno>)
    requires kernel.Valid() && Prepared(kernel.disk, target, tmp, fd, olds, shown)
    requires kernel.disk.files[fd].mode <= wanted && olds <= allowed
    requires Guarded(kernel.log, before, target, tmp, allowed, wanted)
    modifies kernel`disk, kernel`nextInode, kernel`log, kernel`errors
    ensures kernel.errors == WithRaised(old(kernel.errors), failure)
    ensures kernel.Valid() && Guarded(kernel.log, before, target, tmp, allowed, wanted)
    ensures Prepared(kernel.disk, target, tmp, fd, olds, shown)
    ensures kernel.disk == if failure.None? then Synced(old(kernel.disk), fd) else old(kernel.disk)
  {
    FileKeeps(kernel.disk, fd, kernel.disk.files[fd].(clean := true), target, olds, shown);
    var synced := kernel.Fsync(fd);
    SteadyIsSafe(kernel.disk, target, olds, shown, allowed);
    LogGrows(old(kernel.log), kernel.disk, before, target, tmp, allowed, wanted);
    return if synced.Failure? then Some(synced.error) else None;
  }

  /** The short-write loop and the fsync: it ends having written all the data. */
  method WriteAndSync(kernel: Kernel, target: Name, tmp: Name, fd: Inode, data: seq<Byte>, wanted: Mode,
                      ghost olds: Outcomes, ghost shown: Option<seq<Byte>>, ghost allowed: Outcomes, ghost before: seq<Disk>)
    returns (failure: Option<Errno>)
    requires kernel.Valid() && Prepared(kernel.disk, target, tmp, fd, olds, shown)
    requires kernel.disk.files[fd].bytes == [] && kernel.disk.files[fd].mode <= wanted && olds <= allowed
    requires Guarded(kernel.log, before, target, tmp, allowed, wanted)
    modifies kernel`disk, kernel`nextInode, kernel`log, kernel`errors
    ensures kernel.errors == WithRaised(old(kernel.errors), failure)
    ensures kernel.Valid() && Guarded(kernel.log, before, target, tmp, allowed, wanted)
    ensures Prepared(kernel.disk, target, tmp, fd, olds, shown)
    ensures kernel.disk.files[fd].mode == old(kernel.disk.files[fd].mode)
    ensures failure.None? ==> kernel.disk.files[fd].bytes == data && kernel.disk.files[fd].clean
  {
    var view := data;
    while view != []
      invariant kernel.Valid() && Guarded(kernel.log, before, target, tmp, allowed, wanted)
      invariant Prepared(kernel.disk, target, tmp, fd, olds, shown)
      invariant kernel.disk.files[fd].mode == old(kernel.disk.files[fd].mode)
      invariant kernel.errors == old(kernel.errors)
      invariant kernel.disk.files[fd].bytes + view == data
      decreases |view|
    {
      var rest := WriteChunk(kernel, target, tmp, fd, view, wanted, olds, shown, allowed, before);
      if rest.Failure? {
        return Some(rest.error);
      }
      view := rest.value;
    }
    failure := SyncFile(kernel, target, tmp, fd, wanted, olds, shown, allowed, before);
  }

  /** What a power loss may leave after a call that ended so. */
  ghost function LeftBehind(ending: Ending, olds: Outcomes, data: seq<Byte>): Outcomes {
    match ending
    case Durable => iset{Some(data)}
    case RaisedBefore(_) => olds
    case _ => olds + iset{Some(data)}
  }

  /** The `except` block: it removes the temporary name, whoever holds it. */
  method CleanUp(kernel: Kernel, target: Name, tmp: Name, ghost olds: Outcomes, ghost shown: Option<seq<Byte>>,
                 ghost allowed: Outcomes)
    returns (gone: bool)
    requires kernel.Valid() && Steady(kernel.disk, target, olds, shown) && tmp != target && olds <= allowed
    modifies kernel`disk, kernel`log, kernel`unlinked
    ensures kernel.unlinked == old(kernel.unlinked) + [tmp]
    ensures kernel.Valid() && kernel.log == old(kernel.log) + [kernel.disk]
    ensures Steady(kernel.disk, target, olds, shown) && CrashLeaves(kernel.disk, target, allowed)
    ensures kernel.disk == if gone then Unlinked(old(kernel.disk), tmp) else old(kernel.disk)
  {
    UnlinkedKeeps(kernel.disk, tmp, target, olds, shown);
    gone := kernel.Unlink(tmp);
    SteadyIsSafe(kernel.disk, target, olds, shown, allowed);
  }

  /** The directory sync, and which of its errors are let pass. */
  method SyncDirectory(kernel: Kernel, target: Name, data: seq<Byte>, ghost allowed: Outcomes)
    returns (ending: Ending)
    requires kernel.Valid() && Steady(kernel.disk, target, allowed, Some(data)) && Some(data) in allowed
    requires CleanNow(kernel.disk, target)
    modifies kernel`disk, kernel`nextInode, kernel`log, kernel`errors
    ensures kernel.Valid() && kernel.log == old(kernel.log) + [kernel.disk] && !ending.RaisedBefore?
    ensures CrashLeaves(kernel.disk, target, allowed)
    ensures Steady(kernel.disk, target, if ending.Durable? then iset{Some(data)} else allowed, Some(data))
    ensures kernel.disk == if ending.Durable? then DirSynced(old(kernel.disk)) else old(kernel.disk)
    ensures ending.Durable? ==> Settled(kernel.disk, target)
    ensures EndsAfter(ending, old(kernel.errors), kernel.errors)
  {
    DirSyncedSettles(kernel.disk, target);
    var synced := kernel.FsyncDir();
    if synced.Success? {
      SteadyIsSafe(kernel.disk, target, iset{Some(data)}, Some(data), allowed);
      return Durable;
    }
    SteadyIsSafe(kernel.disk, target, allowed, Some(data), allowed);
    return if synced.error in {EINVAL, ENOTSUP, EOPNOTSUPP, EBADF} then NotSyncable else RaisedAfter(synced.error);
  }

  lemma SafeGrows(log: seq<Disk>, d: Disk, from: nat, target: Name, allowed: Outcomes)
    requires SafeSince(log, from, target, allowed) && CrashLeaves(d, target, allowed)
    ensures SafeSince(log + [d], from, target, allowed)
  {
  }

  lemma NarrowGrows(log: seq<Disk>, d: Disk, from: nat, tmp: Name, wanted: Mode)
    requires NarrowSince(log, from, tmp, wanted)
    requires ModeOf(d, tmp).Some? ==> ModeOf(d, tmp).value <= wanted
    ensures NarrowSince(log + [d], from, tmp, wanted)
  {
  }

  lemma OldOrNew(d: Disk, target: Name, data: seq<Byte>)
    requires WellFormed(d)
    ensures Settled(d, target) ==> Left(d, target) + iset{Some(data)} == iset{Contents(d, target), Some(data)}
  {
    if Settled(d, target) {
      SettledLeft(d, target);
    }
  }

  /** The call with its temporary name and mode chosen. */
  method WriteThrough(kernel: Kernel, target: Name, tmp: Name, data: seq<Byte>, wanted: Mode, chmods: bool,
                      ghost olds: Outcomes, ghost shown: Option<seq<Byte>>, ghost allowed: Outcomes)
    returns (ending: Ending, ghost cleaned: bool)
    requires kernel.Valid() && Steady(kernel.disk, target, olds, shown) && tmp != target
    requires allowed == olds + iset{Some(data)}
    modifies kernel
    ensures kernel.Valid() && old(kernel.log) <= kernel.log
    ensures SafeSince(kernel.log, |old(kernel.log)|, target, allowed)
    ensures tmp !in old(kernel.disk.dir) ==> NarrowSince(kernel.log, |old(kernel.log)|, tmp, wanted)
    ensures Steady(kernel.disk, target, LeftBehind(ending, olds, data), if ending.RaisedBefore? then shown else Some(data))
    ensures ending.Durable? ==> Settled(kernel.disk, target)
    ensures EndsAfter(ending, old(kernel.errors), kernel.errors)
    ensures kernel.unlinked == if ending.RaisedBefore? then old(kernel.unlinked) + [tmp] else old(kernel.unlinked)
    ensures tmp in old(kernel.disk.dir) ==>
      ending == RaisedBefore(EEXIST) && kernel.disk == if cleaned then Unlinked(old(kernel.disk), tmp) else old(kernel.disk)
    ensures !ending.RaisedBefore? ==>
      ModeOf(kernel.disk, target) == Some(if chmods then wanted else wanted - kernel.umask)
  {
    cleaned := false;
    var failure := WriteAndRename(kernel, target, tmp, data, wanted, chmods, olds, shown, allowed);
    ghost var log, narrow := kernel.log, tmp !in old(kernel.disk.dir);
    if failure.Some? {
      cleaned := CleanUp(kernel, target, tmp, olds, shown, allowed);
      ending := RaisedBefore(failure.value);
    } else {
      ending := SyncDirectory(kernel, target, data, allowed);
    }
    SafeGrows(log, kernel.disk, |old(kernel.log)|, target, allowed);
    if narrow {
      NarrowGrows(log, kernel.disk, |old(kernel.log)|, tmp, wanted);
    }
  }

  /**
    Whatever state the disk is in, a power loss at any point of the call leaves under the target
    what it might have left before the call, or exactly the new bytes.  A normal return with a
    synced directory leaves only the new bytes; a failure before the rename leaves the target
    as it was.
  */
  method AtomicWriteBytes(kernel: Kernel, target: Name, data: seq<Byte>, mode: Option<Mode>, suffix: string)
    returns (ending: Ending, ghost cleaned: bool)
    requires kernel.Valid()
    modifies kernel
    ensures kernel.Valid() && old(kernel.log) <= kernel.log
    ensures SafeSince(kernel.log, |old(kernel.log)|, target, Left(old(kernel.disk), target) + iset{Some(data)})
    ensures CrashLeaves(kernel.disk, target, LeftBehind(ending, Left(old(kernel.disk), target), data))
    // over a settled target: the old bytes or the new ones, at every moment
    ensures Settled(old(kernel.disk), target) ==>
      SafeSince(kernel.log, |old(kernel.log)|, target, iset{Contents(old(kernel.disk), target), Some(data)})
    ensures ending.Durable? ==> Settled(kernel.disk, target)
    ensures Contents(kernel.disk, target)
         == if ending.RaisedBefore? then Contents(old(kernel.disk), target) else Some(data)
    ensures TempName(target, suffix) !in old(kernel.disk.dir) ==>
      NarrowSince(kernel.log, |old(kernel.log)|, TempName(target, suffix), WantedMode(old(kernel.disk), target, mode))
    // the error that is raised, or let pass, is the one a system call failed with
    ensures EndsAfter(ending, old(kernel.errors), kernel.errors)
    // the temporary name is removed exactly on the way out of a failure before the rename
    ensures kernel.unlinked ==
      if ending.RaisedBefore? then old(kernel.unlinked) + [TempName(target, suffix)] else old(kernel.unlinked)
    // a temporary name somebody else holds ends the call, and the clean-up removes that name
    ensures TempName(target, suffix) in old(kernel.disk.dir) ==>
      && ending == RaisedBefore(EEXIST)
      && kernel.disk == if cleaned then Unlinked(old(kernel.disk), TempName(target, suffix)) else old(kernel.disk)
    ensures !ending.RaisedBefore? ==> ModeOf(kernel.disk, target) == Some(
      if mode.Some? || target in old(kernel.disk.dir) then WantedMode(old(kernel.disk), target, mode)
      else DEFAULT_MODE - kernel.umask)
    // the mode asked for, exactly, and no wider file on the way to it
    ensures mode.Some? && !ending.RaisedBefore? ==> ModeOf(kernel.disk, target) == mode
    ensures mode.Some? && TempName(target, suffix) !in old(kernel.disk.dir) ==>
      NarrowSince(kernel.log, |old(kernel.log)|, TempName(target, suffix), mode.value)
    // or the lowest nine bits of the mode the target had
    ensures mode.None? && target in old(kernel.disk.dir) ==>
      && (!ending.RaisedBefore? ==> ModeOf(kernel.disk, target) == Some(LowNine(ModeOf(old(kernel.disk), target).value)))
      && (TempName(target, suffix) !in old(kernel.disk.dir) ==>
            NarrowSince(kernel.log, |old(kernel.log)|, TempName(target, suffix), LowNine(ModeOf(old(kernel.disk), target).value)))
    // or 0o666 less the umask
    ensures mode.None? && target !in old(kernel.disk.dir) && !ending.RaisedBefore? ==>
      ModeOf(kernel.disk, target) == Some({1, 2, 4, 5, 7, 8} - kernel.umask)
  {
    LowNineIsMasked(kernel.disk, target);
    var tmp := TempName(target, suffix);
    var wanted := WantedMode(kernel.disk, target, mode);
    ghost var shown, olds := Contents(kernel.disk, target), Left(kernel.disk, target);
    TempNameDiffers(target, suffix);
    LeftIsCovered(kernel.disk, target);
    OldOrNew(kernel.disk, target, data);
    ending, cleaned := WriteThrough(kernel, target, tmp, data, wanted, mode.Some? || target in kernel.disk.dir,
                                    olds, shown, olds + iset{Some(data)});
    CoveredSurvives(kernel.disk, target, LeftBehind(ending, olds, data));
  }
}
