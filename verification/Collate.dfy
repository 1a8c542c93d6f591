/** scripts/collate_changelog.py in its own form: loops over the fragments of a checkout that change its files. */
module Collate {
  import opened Wrappers
  import opened TextSearch
  import opened Changelog
  import opened CollateRuns

  /** Nothing but the files; `left` counts the actions until the process is cut short. */
  class Checkout {
    var text: string
    var fragments: map<string, seq<string>>

    ghost function Files(): World
      reads this
    {
      World(text, fragments)
    }

    constructor (text: string, fragments: map<string, seq<string>>)
      ensures Files() == World(text, fragments)
    {
      this.text := text;
      this.fragments := fragments;
    }

    /** `collect`: the merged sections, or the error of the first malformed fragment. */
    method CollectAll(names: seq<string>) returns (r: Result<Sections, ()>)
      requires forall n :: n in names <==> n in fragments
      ensures r.Failure? <==> Malformed(Files())
      ensures r.Success? ==> r.value == Collect(FilesOf(fragments, names))
    {
      CollectsAll(Files(), names);
      var merged: Sections := map[];
      for i := 0 to |names|
        invariant CollectFrom(fragments, names[i..], merged) == CollectFrom(fragments, names, map[])
      {
        assert names[i] in names && names[i..][0] == names[i] && names[i..][1..] == names[i + 1..];
        var sections := ParseFragment(fragments[names[i]]);
        if sections.Failure? {
          return Failure(());
        }
        merged := Merge(merged, sections.value);
      }
      return Success(merged);
    }

    /** `for path in consumed: path.unlink()`, for at most `steps` files. */
    method UnlinkAll(names: seq<string>, steps: nat) returns (cut: bool)
      modifies this
      ensures cut <==> steps < |names|
      ensures Files() == Perform(old(Files()), Unlinks(names)[..if cut then steps else |names|])
    {
      for i := 0 to |names|
        invariant i <= steps
        invariant Files() == Perform(old(Files()), Unlinks(names)[..i])
      {
        if i == steps {
          return true;
        }
        UnlinkOne(names, i, old(Files()));
      }
      return false;
    }

    method UnlinkOne(names: seq<string>, i: nat, ghost before: World)
      requires i < |names| && Files() == Perform(before, Unlinks(names)[..i])
      modifies this
      ensures Files() == Perform(before, Unlinks(names)[..i + 1])
    {
      var actions := Unlinks(names)[..i + 1];
      assert actions[..i] == Unlinks(names)[..i];
      fragments := fragments - {names[i]};
    }

    /** The leftover fragments of a rerun, one by one: consumed when folded, kept otherwise. */
    method Partition(section: string, names: seq<string>) returns (folded: seq<string>)
      requires forall n :: n in names ==> n in fragments
      ensures folded == FoldedNames(Files(), section, names)
    {
      folded := [];
      for i := 0 to |names|
        invariant folded + FoldedNames(Files(), section, names[i..]) == FoldedNames(Files(), section, names)
      {
        assert names[i..][1..] == names[i + 1..];
        AllFoundIff(fragments[names[i]], section);
        if AllIn(Parse(fragments[names[i]]), section) {
          folded := folded + [names[i]];
        }
      }
    }

    /** The script, cut short after `steps` actions; `code` is its exit code if it gets there. */
    method CollateFragments(version: string, today: string, steps: nat) returns (code: Option<nat>)
      modifies this
      ensures Files() == Cut(old(Files()), version, today, steps)
      ensures var plan := Plan(old(Files()), version, today);
        code == if steps < |plan.actions| then None else Some(plan.code)
    {
      var names := Sorted(fragments.Keys);
      var merged := CollectAll(names);
      if merged.Failure? {
        return Some(1);
      }
      if names == [] {
        return Some(0);
      }
      if !Contains(text, UNRELEASED) {
        return Some(1);
      }
      if Contains(text, VersionHeader(version)) {
        code := Rerun(version, names, steps);
      } else {
        code := FoldIn(Section(version, merged.value, today), names, steps);
      }
    }

    method Rerun(version: string, names: seq<string>, steps: nat) returns (code: Option<nat>)
      requires Contains(text, VersionHeader(version)) && forall n :: n in names ==> n in fragments
      modifies this
      ensures var folded := FoldedNames(old(Files()), SectionText(old(text), version), names);
        && Files() == Perform(old(Files()), Unlinks(folded)[..if steps < |folded| then steps else |folded|])
        && code == if steps < |folded| then None else Some(if folded == names then 0 else 1)
    {
      var folded := Partition(SectionText(text, version), names);
      var cut := UnlinkAll(folded, steps);
      return if cut then None else Some(if folded == names then 0 else 1);
    }

    method FoldIn(section: string, names: seq<string>, steps: nat) returns (code: Option<nat>)
      modifies this
      ensures var actions := [Write(Folded(old(text), section))] + Unlinks(names);
        && Files() == Perform(old(Files()), actions[..if steps < |actions| then steps else |actions|])
        && code == if steps < |actions| then None else Some(0)
    {
      if steps == 0 {
        return None;
      }
      ghost var before := Files();
      text := Folded(text, section);
      var cut := UnlinkAll(names, steps - 1);
      WriteThenUnlink(before, Folded(before.text, section), names, if cut then steps else |names| + 1);
      return if cut then None else Some(0);
    }
  }

  function CollectFrom(fragments: map<string, seq<string>>, names: seq<string>, merged: Sections): Result<Sections, ()>
    requires forall n :: n in names ==> n in fragments
    decreases |names|
  {
    if names == [] then Success(merged)
    else if NoBullets(fragments[names[0]]) then Failure(())
    else CollectFrom(fragments, names[1..], Merge(merged, Parse(fragments[names[0]])))
  }

  predicate SomeRefused(fragments: map<string, seq<string>>, names: seq<string>)
    requires forall n :: n in names ==> n in fragments
  {
    exists k :: 0 <= k < |names| && NoBullets(fragments[names[k]])
  }

  lemma CollectNext(fragments: map<string, seq<string>>, names: seq<string>, i: nat)
    requires i < |names| && forall n :: n in names ==> n in fragments
    ensures Collect(FilesOf(fragments, names[..i + 1]))
         == Merge(Collect(FilesOf(fragments, names[..i])), Parse(fragments[names[i]]))
  {
    var files := FilesOf(fragments, names[..i + 1]);
    assert files[..i] == FilesOf(fragments, names[..i]);
  }

  lemma SomeRefusedFirst(fragments: map<string, seq<string>>, names: seq<string>)
    requires names != [] && forall n :: n in names ==> n in fragments
    ensures forall n :: n in names[1..] ==> n in names
    ensures SomeRefused(fragments, names) <==> NoBullets(fragments[names[0]]) || SomeRefused(fragments, names[1..])
  {
    if SomeRefused(fragments, names) && !NoBullets(fragments[names[0]]) {
      var k :| 0 <= k < |names| && NoBullets(fragments[names[k]]);
      assert names[1..][k - 1] == names[k];
    }
    if SomeRefused(fragments, names[1..]) {
      var k :| 0 <= k < |names[1..]| && NoBullets(fragments[names[1..][k]]);
      assert names[k + 1] == names[1..][k];
    }
  }

  /** The loop gives up at the first malformed fragment, and otherwise folds them all. */
  lemma {:induction false} CollectFromHere(fragments: map<string, seq<string>>, names: seq<string>, i: nat)
    requires i <= |names| && forall n :: n in names ==> n in fragments
    ensures forall n :: n in names[i..] ==> n in fragments
    ensures var r := CollectFrom(fragments, names[i..], Collect(FilesOf(fragments, names[..i])));
      && (r.Failure? <==> SomeRefused(fragments, names[i..]))
      && (r.Success? ==> r.value == Collect(FilesOf(fragments, names)))
    decreases |names| - i
  {
    if i == |names| {
      assert names[..i] == names;
    } else {
      var rest := names[i..];
      assert rest[0] == names[i] && rest[1..] == names[i + 1..];
      assert names[i] in names;
      CollectNext(fragments, names, i);
      CollectFromHere(fragments, names, i + 1);
      SomeRefusedFirst(fragments, rest);
    }
  }

  lemma CollectsAll(w: World, names: seq<string>)
    requires forall n :: n in names <==> n in w.fragments
    ensures var r := CollectFrom(w.fragments, names, map[]);
      && (r.Failure? <==> Malformed(w))
      && (r.Success? ==> r.value == Collect(FilesOf(w.fragments, names)))
  {
    CollectFromHere(w.fragments, names, 0);
    assert names[0..] == names && FilesOf(w.fragments, names[..0]) == [];
    if Malformed(w) {
      var n :| n in w.fragments && NoBullets(w.fragments[n]);
      var k :| 0 <= k < |names| && names[k] == n;
    }
    if SomeRefused(w.fragments, names) {
      var k :| 0 <= k < |names| && NoBullets(w.fragments[names[k]]);
      assert names[k] in names;
    }
  }

  lemma WriteThenUnlink(w: World, text: string, names: seq<string>, k: nat)
    requires 0 < k <= |names| + 1
    ensures Perform(w, ([Write(text)] + Unlinks(names))[..k]) == Perform(w.(text := text), Unlinks(names)[..k - 1])
  {
    assert ([Write(text)] + Unlinks(names))[..k] == [Write(text)] + Unlinks(names)[..k - 1];
    PerformFirst(w, Write(text), Unlinks(names)[..k - 1]);
  }
}
