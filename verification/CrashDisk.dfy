/**
  One directory of a disk that may lose power: what the kernel shows, what is durable, and
  every state the disk may come back in.  The guarantees of fsync() and rename() are those
  of POSIX.1-2017, System Interfaces.
*/
module CrashDisks {
  import opened Wrappers

  type Byte = b: int | 0 <= b < 256
  type Name = string
  type Inode = nat

  /** Permission bits, as the set of their positions. */
  type Mode = set<nat>

  /** A file whose bytes are clean survives a crash as it is; otherwise any bytes may come back. */
  datatype File = File(bytes: seq<Byte>, clean: bool, mode: Mode)

  /** A change of the directory that may or may not survive a crash; a rename is one change. */
  datatype DirOp =
    | Create(name: Name, inode: Inode)
    | Remove(name: Name)
    | Rename(from: Name, to: Name, inode: Inode)

  datatype Disk = Disk(
    files: map<Inode, File>,
    dir: map<Name, Inode>,      // what the running kernel shows
    durable: map<Name, Inode>,  // the directory as of its last fsync
    pending: seq<DirOp>)        // the changes made since

  predicate Touches(op: DirOp, name: Name) {
    match op
    case Create(n, _) => n == name
    case Remove(n) => n == name
    case Rename(from, to, _) => from == name || to == name
  }

  function ApplyOp(dir: map<Name, Inode>, op: DirOp): map<Name, Inode> {
    match op
    case Create(n, i) => dir[n := i]
    case Remove(n) => dir - {n}
    case Rename(from, to, i) => (dir - {from})[to := i]
  }

  /** The directory that results when exactly the pending changes marked in `kept` survive. */
  function Replay(dir: map<Name, Inode>, ops: seq<DirOp>, kept: seq<bool>): map<Name, Inode>
    requires |ops| == |kept|
  {
    if ops == [] then dir else
      var n := |ops| - 1;
      var before := Replay(dir, ops[..n], kept[..n]);
      if kept[n] then ApplyOp(before, ops[n]) else before
  }

  ghost predicate WellFormed(d: Disk) {
    && d.dir == Replay(d.durable, d.pending, seq(|d.pending|, k => true))
    && (forall n :: n in d.dir ==> d.dir[n] in d.files)
    && (forall n :: n in d.durable ==> d.durable[n] in d.files)
    && (forall k :: 0 <= k < |d.pending| && !d.pending[k].Remove? ==> d.pending[k].inode in d.files)
  }

  /** `after` is what a power loss may leave of `d`: names with the bytes found under them. */
  ghost predicate MayCrashTo(d: Disk, after: map<Name, seq<Byte>>) {
    exists kept: seq<bool> :: |kept| == |d.pending| && ImageOf(d, kept, after)
  }

  ghost predicate ImageOf(d: Disk, kept: seq<bool>, after: map<Name, seq<Byte>>)
    requires |kept| == |d.pending|
  {
    var dir := Replay(d.durable, d.pending, kept);
    && after.Keys == dir.Keys
    && forall n :: n in dir && dir[n] in d.files && d.files[dir[n]].clean ==> after[n] == d.files[dir[n]].bytes
  }

  /** The bytes the running system reads under `name`. */
  function Contents(d: Disk, name: Name): Option<seq<Byte>> {
    if name in d.dir && d.dir[name] in d.files then Some(d.files[d.dir[name]].bytes) else None
  }

  /** Nothing about `name` is waiting for a sync. */
  ghost predicate Settled(d: Disk, name: Name) {
    && (forall k :: 0 <= k < |d.pending| ==> !Touches(d.pending[k], name))
    && (name in d.durable ==> d.durable[name] in d.files && d.files[d.durable[name]].clean)
  }

  // ---- what survives -------------------------------------------------------------------

  lemma {:induction false} ReplayUntouched(dir: map<Name, Inode>, ops: seq<DirOp>, kept: seq<bool>, name: Name)
    requires |ops| == |kept|
    requires forall k :: 0 <= k < |ops| ==> !Touches(ops[k], name)
    ensures Lookup(Replay(dir, ops, kept), name) == Lookup(dir, name)
  {
    if ops != [] {
      ReplayUntouched(dir, ops[..|ops| - 1], kept[..|ops| - 1], name);
    }
  }

  /** One more change leaves each replay as it was, or makes that change last. */
  lemma ReplayLast(dir: map<Name, Inode>, ops: seq<DirOp>, op: DirOp, kept: seq<bool>)
    requires |kept| == |ops| + 1
    ensures var before := Replay(dir, ops, kept[..|ops|]);
      Replay(dir, ops + [op], kept) == if kept[|ops|] then ApplyOp(before, op) else before
  {
    assert (ops + [op])[..|ops|] == ops;
  }

  /** Contents a name may be found with: none when there is no such name. */
  type Outcomes = iset<Option<seq<Byte>>>

  /** Whatever survives, `name` is gone only if `olds` allows that, and else shows a file that reads back as `olds` allows. */
  ghost predicate Covered(d: Disk, name: Name, olds: Outcomes) {
    forall kept: seq<bool> :: |kept| == |d.pending| ==>
      Shows(d, Lookup(Replay(d.durable, d.pending, kept), name), olds)
  }

  ghost predicate Shows(d: Disk, entry: Option<Inode>, olds: Outcomes) {
    match entry
    case None => None in olds
    case Some(i) => i in d.files && (if d.files[i].clean then Some(d.files[i].bytes) in olds else AnyBytes(olds))
  }

  ghost predicate AnyBytes(olds: Outcomes) {
    forall bytes: seq<Byte> :: Some(bytes) in olds
  }

  /** A power loss in `d` leaves under `name` one of `olds`. */
  ghost predicate CrashLeaves(d: Disk, name: Name, olds: Outcomes) {
    forall after :: MayCrashTo(d, after) ==> Lookup(after, name) in olds
  }

  lemma CoveredSurvives(d: Disk, name: Name, olds: Outcomes)
    requires Covered(d, name, olds)
    ensures CrashLeaves(d, name, olds)
  {
    forall after | MayCrashTo(d, after)
      ensures Lookup(after, name) in olds
    {
      var kept: seq<bool> :| |kept| == |d.pending| && ImageOf(d, kept, after);
      assert Shows(d, Lookup(Replay(d.durable, d.pending, kept), name), olds);
    }
  }

  /** The bytes a power loss leaves when the entries marked in `kept` survive and dirty files come back as `torn`. */
  ghost function Image(d: Disk, kept: seq<bool>, torn: seq<Byte>): map<Name, seq<Byte>>
    requires |kept| == |d.pending|
  {
    var dir := Replay(d.durable, d.pending, kept);
    map n | n in dir :: if dir[n] in d.files && d.files[dir[n]].clean then d.files[dir[n]].bytes else torn
  }

  lemma ImageTears(d: Disk, name: Name, olds: Outcomes, kept: seq<bool>, torn: seq<Byte>)
    requires CrashLeaves(d, name, olds) && |kept| == |d.pending|
    ensures Lookup(Image(d, kept, torn), name) in olds
  {
    assert ImageOf(d, kept, Image(d, kept, torn));
  }

  /** No weaker condition would do: a power loss leaves one of some contents exactly when they cover the name. */
  lemma CoveredIff(d: Disk, name: Name, olds: Outcomes)
    requires WellFormed(d)
    ensures Covered(d, name, olds) <==> CrashLeaves(d, name, olds)
  {
    if Covered(d, name, olds) {
      CoveredSurvives(d, name, olds);
    }
    if CrashLeaves(d, name, olds) {
      forall kept: seq<bool> | |kept| == |d.pending|
        ensures Shows(d, Lookup(Replay(d.durable, d.pending, kept), name), olds)
      {
        ReplayInodes(d, d.pending, kept);
        ImageTears(d, name, olds, kept, []);
        forall torn: seq<Byte> ensures Lookup(Image(d, kept, torn), name) in olds {
          ImageTears(d, name, olds, kept, torn);
        }
        var entry := Lookup(Replay(d.durable, d.pending, kept), name);
        if entry.Some? && !d.files[entry.value].clean {
          forall torn: seq<Byte> ensures Some(torn) in olds {
            assert Lookup(Image(d, kept, torn), name) == Some(torn);
          }
        }
      }
    }
  }

  lemma {:induction false} ReplayInodes(d: Disk, ops: seq<DirOp>, kept: seq<bool>)
    requires WellFormed(d) && |ops| == |kept|
    requires forall k :: 0 <= k < |ops| && !ops[k].Remove? ==> ops[k].inode in d.files
    ensures forall n :: n in Replay(d.durable, ops, kept) ==> Replay(d.durable, ops, kept)[n] in d.files
  {
    if ops != [] {
      ReplayInodes(d, ops[..|ops| - 1], kept[..|ops| - 1]);
    }
  }

  ghost predicate MayLeave(d: Disk, name: Name, contents: Option<seq<Byte>>) {
    exists after :: MayCrashTo(d, after) && Lookup(after, name) == contents
  }

  /** Everything a power loss may leave under `name`. */
  ghost function Left(d: Disk, name: Name): Outcomes {
    iset contents | MayLeave(d, name, contents)
  }

  lemma LeftIsCovered(d: Disk, name: Name)
    requires WellFormed(d)
    ensures Covered(d, name, Left(d, name))
  {
    forall after | MayCrashTo(d, after)
      ensures Lookup(after, name) in Left(d, name)
    {
      assert MayLeave(d, name, Lookup(after, name));
    }
    CoveredIff(d, name, Left(d, name));
  }

  /** A settled name comes back as it was, whatever else was in flight. */
  lemma SettledIsCovered(d: Disk, name: Name)
    requires WellFormed(d) && Settled(d, name)
    ensures Covered(d, name, iset{Contents(d, name)})
  {
    ReplayUntouched(d.durable, d.pending, seq(|d.pending|, k => true), name);
    forall kept: seq<bool> | |kept| == |d.pending|
      ensures Shows(d, Lookup(Replay(d.durable, d.pending, kept), name), iset{Contents(d, name)})
    {
      ReplayUntouched(d.durable, d.pending, kept, name);
    }
  }

  lemma SettledSurvives(d: Disk, name: Name, after: map<Name, seq<Byte>>)
    requires WellFormed(d) && Settled(d, name) && MayCrashTo(d, after)
    ensures Lookup(after, name) == Contents(d, name)
  {
    SettledIsCovered(d, name);
    CoveredSurvives(d, name, iset{Contents(d, name)});
  }

  /** All a power loss may leave under a settled name is what it shows. */
  lemma SettledLeft(d: Disk, name: Name)
    requires WellFormed(d) && Settled(d, name)
    ensures Left(d, name) == iset{Contents(d, name)}
  {
    forall contents | contents in Left(d, name)
      ensures contents == Contents(d, name)
    {
      var after :| MayCrashTo(d, after) && Lookup(after, name) == contents;
      SettledSurvives(d, name, after);
    }
    var kept := seq(|d.pending|, k => true);
    var after := Image(d, kept, []);
    assert ImageOf(d, kept, after);
    SettledSurvives(d, name, after);
    assert MayLeave(d, name, Contents(d, name));
  }

  lemma {:induction false} ReplayAllThenOne(dir: map<Name, Inode>, ops: seq<DirOp>, op: DirOp)
    ensures Replay(dir, ops + [op], seq(|ops + [op]|, k => true))
         == ApplyOp(Replay(dir, ops, seq(|ops|, k => true)), op)
  {
    var all := seq(|ops + [op]|, k => true);
    assert (ops + [op])[..|ops|] == ops;
    assert all[..|ops|] == seq(|ops|, k => true);
  }
}
