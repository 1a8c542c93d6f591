/**
  `main` of scripts/collate_changelog.py as it acts on a checkout: runs that may be cut short
  after any action, reruns for a version already present, and fragments landing in between.
*/
module CollateRuns {
  import opened Text
  import opened TextSearch
  import opened Changelog

  const UNRELEASED := "## [Unreleased]"
  const ANCHOR := "## [Unreleased]\n"
  const MARK := "## ["

  /** CHANGELOG.md and the lines of every file of changelog.d. */
  datatype World = World(text: string, fragments: map<string, seq<string>>)

  datatype Action = Write(text: string) | Unlink(name: string)
  datatype Outcome = Outcome(actions: seq<Action>, code: nat)

  // ---- what a run does ----------------------------------------------------------------------------

  /** The target version's own section, up to the next version header. */
  function SectionText(text: string, version: string): string
    requires Contains(text, VersionHeader(version))
  {
    var start := Find(text, VersionHeader(version), 0).value;
    match Find(text, "\n" + MARK, start + |VersionHeader(version)|)
    case None => text[start..]
    case Some(end) => text[start..end]
  }

  /** Every note of the fragment is part of the section. */
  predicate AllFound(lines: seq<string>, section: string) {
    forall k :: 0 <= k < |lines| && IsNote(lines[k]) ==> Contains(section, RStrip(lines[k]))
  }

  predicate AllIn(m: Sections, section: string) {
    forall s :: s in m ==> forall l :: l in m[s] ==> Contains(section, l)
  }

  lemma AllFoundIff(lines: seq<string>, section: string)
    ensures AllFound(lines, section) <==> AllIn(Parse(lines), section)
  {
    if AllFound(lines, section) {
      forall s, l | s in Parse(lines) && l in Parse(lines)[s]
        ensures Contains(section, l)
      {
        var k := ParsedIsBullet(lines, s, l);
      }
    }
    if AllIn(Parse(lines), section) {
      forall k | 0 <= k < |lines| && IsNote(lines[k])
        ensures Contains(section, RStrip(lines[k]))
      {
        var s := BulletIsParsed(lines, k);
      }
    }
  }

  function FilesOf(fragments: map<string, seq<string>>, names: seq<string>): seq<seq<string>>
    requires forall n :: n in names ==> n in fragments
  {
    seq(|names|, i requires 0 <= i < |names| => fragments[names[i]])
  }

  function FoldedNames(w: World, section: string, names: seq<string>): (r: seq<string>)
    requires forall n :: n in names ==> n in w.fragments
    ensures forall n :: n in r <==> n in names && AllFound(w.fragments[n], section)
  {
    if names == [] then []
    else if AllFound(w.fragments[names[0]], section) then [names[0]] + FoldedNames(w, section, names[1..])
    else FoldedNames(w, section, names[1..])
  }

  function Unlinks(names: seq<string>): seq<Action> {
    seq(|names|, i requires 0 <= i < |names| => Unlink(names[i]))
  }

  function Section(version: string, merged: Sections, today: string): string {
    Join(RenderLines(version, merged, today))
  }

  function Folded(text: string, section: string): string {
    ReplaceFirst(text, ANCHOR, ANCHOR + "\n" + section)
  }

  predicate Malformed(w: World) {
    exists n :: n in w.fragments && NoBullets(w.fragments[n])
  }

  function Plan(w: World, version: string, today: string): Outcome {
    var names := Sorted(w.fragments.Keys);
    if Malformed(w) then Outcome([], 1)
    else if names == [] then Outcome([], 0)
    else if !Contains(w.text, UNRELEASED) then Outcome([], 1)
    else if Contains(w.text, VersionHeader(version)) then
      var folded := FoldedNames(w, SectionText(w.text, version), names);
      Outcome(Unlinks(folded), if folded == names then 0 else 1)
    else
      var section := Section(version, Collect(FilesOf(w.fragments, names)), today);
      Outcome([Write(Folded(w.text, section))] + Unlinks(names), 0)
  }

  function Step(w: World, a: Action): World {
    match a
    case Write(text) => w.(text := text)
    case Unlink(name) => w.(fragments := w.fragments - {name})
  }

  function Perform(w: World, actions: seq<Action>): World {
    if actions == [] then w else Step(Perform(w, actions[..|actions| - 1]), actions[|actions| - 1])
  }

  /** A run that stops after `steps` actions, or at its end. */
  function Cut(w: World, version: string, today: string, steps: nat): World {
    var actions := Plan(w, version, today).actions;
    Perform(w, actions[..if steps < |actions| then steps else |actions|])
  }

  function Finish(w: World, version: string, today: string): World {
    Perform(w, Plan(w, version, today).actions)
  }

  lemma {:induction false} PerformUnlinks(w: World, names: seq<string>)
    ensures Perform(w, Unlinks(names)) == World(w.text, w.fragments - (set n | n in names))
  {
    if names == [] {
      assert w.fragments - (set n | n in names) == w.fragments;
    } else {
      var k := |names| - 1;
      assert Unlinks(names)[..k] == Unlinks(names[..k]);
      PerformUnlinks(w, names[..k]);
      assert names == names[..k] + [names[k]];
      assert (set n | n in names) == (set n | n in names[..k]) + {names[k]};
      assert w.fragments - (set n | n in names[..k]) - {names[k]} == w.fragments - (set n | n in names);
    }
  }

  lemma {:induction false} PerformFirst(w: World, a: Action, rest: seq<Action>)
    ensures Perform(w, [a] + rest) == Perform(Step(w, a), rest)
    decreases |rest|
  {
    if rest == [] {
      assert [a] + rest == [a];
      assert Perform(w, [a][..0]) == w;
    } else {
      var k := |rest| - 1;
      assert ([a] + rest)[..k + 1] == [a] + rest[..k];
      PerformFirst(w, a, rest[..k]);
    }
  }
}
