/**
  Which release notes outlast the runs of scripts/collate_changelog.py.  A note is kept when it
  waits in a fragment or stands as a whole line of the changelog; the script looks for it as
  part of a line, and the difference decides.
*/
module CollateSafety {
  import opened Text
  import opened TextSearch
  import opened Changelog
  import opened CollateRuns
  import opened FoldedSections

  // ---- notes ----------------------------------------------------------------------------------------------

  predicate InFragments(w: World, l: string) {
    exists n :: n in w.fragments && HasBullet(w.fragments[n], l)
  }

  /** The note is waiting in a fragment or stands as a line of the changelog. */
  predicate Noted(w: World, l: string) {
    InFragments(w, l) || HasLine(w.text, l)
  }

  /** The note is waiting in a fragment or stands as a line of that version's section. */
  predicate NotedFor(w: World, version: string, l: string) {
    InFragments(w, l) || InSection(w.text, version, l)
  }

  function Merged(w: World): Sections {
    Collect(FilesOf(w.fragments, Sorted(w.fragments.Keys)))
  }

  lemma MergedHas(w: World, n: string, l: string) returns (s: string)
    requires n in w.fragments && HasBullet(w.fragments[n], l)
    ensures s in Merged(w) && l in Merged(w)[s]
  {
    var names := Sorted(w.fragments.Keys);
    var i :| 0 <= i < |names| && names[i] == n;
    var k :| 0 <= k < |w.fragments[n]| && IsNote(w.fragments[n][k]) && RStrip(w.fragments[n][k]) == l;
    s := BulletIsParsed(w.fragments[n], k);
    CollectHas(FilesOf(w.fragments, names), i, s, l);
  }

  /** `gone` were found folded by a rerun: each of their bullets is in the version's section. */
  ghost predicate FoundFolded(w: World, version: string, gone: set<string>) {
    Contains(w.text, VersionHeader(version)) && forall n :: n in gone ==>
      n in w.fragments && AllFound(w.fragments[n], SectionText(w.text, version))
  }

  lemma RerunCut(w: World, version: string, folded: seq<string>, k: nat) returns (gone: set<string>)
    requires Contains(w.text, VersionHeader(version)) && k <= |folded|
    requires forall n :: n in folded ==>
      n in w.fragments && AllFound(w.fragments[n], SectionText(w.text, version))
    ensures Perform(w, Unlinks(folded)[..k]) == World(w.text, w.fragments - gone)
    ensures FoundFolded(w, version, gone)
  {
    var part := folded[..k];
    assert Unlinks(folded)[..k] == Unlinks(part);
    PerformUnlinks(w, part);
    gone := set n | n in part;
  }

  lemma FoldCut(w: World, text: string, names: seq<string>, k: nat) returns (gone: set<string>)
    requires 0 < k <= |names| + 1
    ensures Perform(w, ([Write(text)] + Unlinks(names))[..k]) == World(text, w.fragments - gone)
  {
    var part := names[..k - 1];
    assert ([Write(text)] + Unlinks(names))[..k] == [Write(text)] + Unlinks(part);
    PerformFirst(w, Write(text), Unlinks(part));
    PerformUnlinks(Step(w, Write(text)), part);
    gone := set n | n in part;
  }

  /** What a run can have done when it stops: nothing, part of a rerun, or a fold and part of its cleaning up. */
  /** What a run sets out to do. */
  lemma PlanCases(w: World, version: string, today: string, names: seq<string>)
    requires names == Sorted(w.fragments.Keys)
    ensures var actions := Plan(w, version, today).actions;
      || actions == []
      || (Contains(w.text, VersionHeader(version))
          && actions == Unlinks(FoldedNames(w, SectionText(w.text, version), names)))
      || (Contains(w.text, UNRELEASED) && !Contains(w.text, VersionHeader(version))
          && actions == [Write(Folded(w.text, Section(version, Merged(w), today)))] + Unlinks(names))
  {
  }

  lemma CutCases(w: World, version: string, today: string, steps: nat) returns (gone: set<string>)
    ensures Cut(w, version, today, steps).fragments == w.fragments - gone
    ensures (Cut(w, version, today, steps).text == w.text && (gone == {} || FoundFolded(w, version, gone)))
         || (Cut(w, version, today, steps).text == Folded(w.text, Section(version, Merged(w), today))
             && Contains(w.text, UNRELEASED) && !Contains(w.text, VersionHeader(version)))
  {
    var names := Sorted(w.fragments.Keys);
    var actions := Plan(w, version, today).actions;
    var k := if steps < |actions| then steps else |actions|;
    PlanCases(w, version, today, names);
    if k == 0 {
      gone := {};
      assert w.fragments - gone == w.fragments;
    } else if Contains(w.text, VersionHeader(version)) {
      gone := RerunCut(w, version, FoldedNames(w, SectionText(w.text, version), names), k);
    } else {
      gone := FoldCut(w, Folded(w.text, Section(version, Merged(w), today)), names, k);
    }
  }

  /** A rerun for `version` takes fragment `n` for folded. */
  predicate TakenForFolded(w: World, version: string, n: string)
    requires n in w.fragments
  {
    Contains(w.text, VersionHeader(version)) && AllFound(w.fragments[n], SectionText(w.text, version))
  }

  lemma MalformedStops(w: World, version: string, today: string, steps: nat)
    requires Malformed(w)
    ensures Cut(w, version, today, steps) == w
  {
  }

  lemma FoldNotes(w: World, version: string, today: string, n: string, l: string)
    requires Contains(w.text, ANCHOR) && n in w.fragments && HasBullet(w.fragments[n], l)
    ensures HasLine(Folded(w.text, Section(version, Merged(w), today)), l)
  {
    var m := Merged(w);
    var s := MergedHas(w, n, l);
    var k := SectionHas(version, m, today, s, l);
    RenderedEnds(version, m, today);
    FoldShows(w.text, RenderLines(version, m, today), k);
  }

  // ---- any versions ------------------------------------------------------------------------------------------

  /** Some fragment carries the note and is not taken for folded, whatever the version of the run. */
  ghost predicate Held(w: World, l: string) {
    exists n :: n in w.fragments && HasBullet(w.fragments[n], l) && forall v :: !TakenForFolded(w, v, n)
  }

  /** The note is a line of the changelog, or held, or a malformed fragment stops every run. */
  ghost predicate Safe(w: World, l: string) {
    HasLine(w.text, l) || Held(w, l) || Malformed(w)
  }

  lemma CutKeepsSafe(w: World, version: string, today: string, steps: nat, l: string)
    requires Contains(w.text, ANCHOR) && OneLine(l) && Noted(w, l) && Safe(w, l)
    ensures var c := Cut(w, version, today, steps);
      Contains(c.text, ANCHOR) && Noted(c, l) && Safe(c, l)
  {
    var c := Cut(w, version, today, steps);
    if Malformed(w) {
      MalformedStops(w, version, today, steps);
    } else {
      var gone := CutCases(w, version, today, steps);
      if c.text == w.text {
        if !HasLine(w.text, l) {
          var n :| n in w.fragments && HasBullet(w.fragments[n], l) && forall v :: !TakenForFolded(w, v, n);
          KeptIsHeld(w, c, version, gone, n, l);
        }
      } else {
        FoldIsSafe(w, c.text, version, today, l);
      }
    }
  }

  lemma NotTakenStays(w: World, c: World, version: string, gone: set<string>, n: string)
    requires c == World(w.text, w.fragments - gone)
    requires gone == {} || FoundFolded(w, version, gone)
    requires n in w.fragments && !TakenForFolded(w, version, n)
    ensures n in c.fragments && c.fragments[n] == w.fragments[n]
  {
  }

  lemma SameFragment(w: World, c: World, n: string)
    requires c.text == w.text && n in w.fragments && n in c.fragments && c.fragments[n] == w.fragments[n]
    ensures forall v :: TakenForFolded(c, v, n) <==> TakenForFolded(w, v, n)
  {
  }

  lemma KeptIsHeld(w: World, c: World, version: string, gone: set<string>, n: string, l: string)
    requires c == World(w.text, w.fragments - gone)
    requires gone == {} || FoundFolded(w, version, gone)
    requires n in w.fragments && HasBullet(w.fragments[n], l) && !TakenForFolded(w, version, n)
    ensures InFragments(c, l)
    ensures (forall v :: !TakenForFolded(w, v, n)) ==> Held(c, l)
  {
    NotTakenStays(w, c, version, gone, n);
    SameFragment(w, c, n);
  }

  lemma FoldIsSafe(w: World, text: string, version: string, today: string, l: string)
    requires Contains(w.text, ANCHOR) && OneLine(l) && Noted(w, l)
    requires text == Folded(w.text, Section(version, Merged(w), today))
    ensures Contains(text, ANCHOR) && HasLine(text, l)
  {
    var section := Section(version, Merged(w), today);
    FoldKeepsAnchor(w.text, section);
    if HasLine(w.text, l) {
      SectionEndsLine(version, Merged(w), today);
      FoldKeeps(w.text, section, l);
    } else {
      var n :| n in w.fragments && HasBullet(w.fragments[n], l);
      FoldNotes(w, version, today, n, l);
    }
  }

  // ---- runs -------------------------------------------------------------------------------------------------

  /** A new fragment arrives, or the script runs and stops after `steps` actions. */
  datatype Event = Land(name: string, lines: seq<string>) | Collate(version: string, today: string, steps: nat)

  function Apply(w: World, e: Event): World {
    match e
    case Land(name, lines) => if name in w.fragments then w else w.(fragments := w.fragments[name := lines])
    case Collate(version, today, steps) => Cut(w, version, today, steps)
  }

  function Replay(w: World, events: seq<Event>): World
    decreases |events|
  {
    if events == [] then w else Replay(Apply(w, events[0]), events[1..])
  }

  lemma LandKeepsFragments(w: World, e: Event, l: string)
    requires e.Land? && InFragments(w, l)
    ensures InFragments(Apply(w, e), l)
  {
    var n :| n in w.fragments && HasBullet(w.fragments[n], l);
    assert n in Apply(w, e).fragments;
  }

  lemma LandKeepsMalformed(w: World, e: Event)
    requires e.Land? && Malformed(w)
    ensures Malformed(Apply(w, e))
  {
    var n :| n in w.fragments && NoBullets(w.fragments[n]);
    assert n in Apply(w, e).fragments;
  }

  lemma LandKeepsFragment(w: World, e: Event, n: string)
    requires e.Land? && n in w.fragments
    ensures Apply(w, e).text == w.text && n in Apply(w, e).fragments && Apply(w, e).fragments[n] == w.fragments[n]
    ensures forall v :: TakenForFolded(Apply(w, e), v, n) <==> TakenForFolded(w, v, n)
  {
    SameFragment(w, Apply(w, e), n);
  }

  lemma LandKeepsHeld(w: World, e: Event, l: string)
    requires e.Land? && Held(w, l)
    ensures Held(Apply(w, e), l)
  {
    var n :| n in w.fragments && HasBullet(w.fragments[n], l) && forall v :: !TakenForFolded(w, v, n);
    LandKeepsFragment(w, e, n);
  }

  lemma LandKeepsSafe(w: World, e: Event, l: string)
    requires e.Land? && Noted(w, l) && Safe(w, l)
    ensures Noted(Apply(w, e), l) && Safe(Apply(w, e), l)
  {
    if InFragments(w, l) {
      LandKeepsFragments(w, e, l);
    }
    if Malformed(w) {
      LandKeepsMalformed(w, e);
    } else if Held(w, l) {
      LandKeepsHeld(w, e, l);
    }
  }

  /** A safe note outlasts every sequence of runs for any versions, cut short anywhere. */
  lemma {:induction false} SafeNoteIsKept(w: World, events: seq<Event>, l: string)
    requires Contains(w.text, ANCHOR) && OneLine(l) && Noted(w, l) && Safe(w, l)
    ensures Noted(Replay(w, events), l)
    decreases |events|
  {
    if events != [] {
      var e := events[0];
      if e.Land? {
        LandKeepsSafe(w, e, l);
      } else {
        CutKeepsSafe(w, e.version, e.today, e.steps, l);
      }
      SafeNoteIsKept(Apply(w, e), events[1..], l);
    }
  }

  lemma AnchorHasUnreleased(text: string)
    requires Contains(text, ANCHOR)
    ensures Contains(text, UNRELEASED)
  {
    var i: nat :| At(text, ANCHOR, i);
    assert forall k :: 0 <= k < |UNRELEASED| ==> UNRELEASED[k] == ANCHOR[k];
    assert At(text, UNRELEASED, i);
  }

  /** One complete rerun takes a carrier of the note away and changes nothing else that matters. */
  lemma TakeCarrier(w: World, version: string, today: string, n: string) returns (e: Event)
    requires Contains(w.text, UNRELEASED) && !Malformed(w) && n in w.fragments && TakenForFolded(w, version, n)
    ensures Apply(w, e).text == w.text && n !in Apply(w, e).fragments
    ensures forall m :: m in Apply(w, e).fragments ==> m in w.fragments && Apply(w, e).fragments[m] == w.fragments[m]
  {
    e := Collate(version, today, |Plan(w, version, today).actions|);
    var gone := CutCases(w, version, today, e.steps);
    FinishIsCut(w, version, today);
    RerunConsumesFolded(w, version, today, n);
  }

  /** A note that is not safe is lost in some sequence of complete runs. */
  lemma {:induction false} UnsafeNoteIsLost(w: World, l: string) returns (events: seq<Event>)
    requires Contains(w.text, UNRELEASED) && !Safe(w, l)
    ensures !Noted(Replay(w, events), l)
    decreases w.fragments.Keys
  {
    events := [];
    if InFragments(w, l) {
      var n :| n in w.fragments && HasBullet(w.fragments[n], l);
      var v :| TakenForFolded(w, v, n);
      var e := TakeCarrier(w, v, "", n);
      var c := Apply(w, e);
      StillUnsafe(w, c, l);
      assert c.fragments.Keys < w.fragments.Keys;
      var more := UnsafeNoteIsLost(c, l);
      events := [e] + more;
      assert events[1..] == more;
    }
  }

  lemma StillUnsafe(w: World, c: World, l: string)
    requires !Safe(w, l) && c.text == w.text
    requires forall m :: m in c.fragments ==> m in w.fragments && c.fragments[m] == w.fragments[m]
    ensures !Safe(c, l)
  {
    forall n | n in c.fragments && HasBullet(c.fragments[n], l)
      ensures exists v :: TakenForFolded(c, v, n)
    {
      var v :| TakenForFolded(w, v, n);
      assert TakenForFolded(c, v, n);
    }
    forall n | n in c.fragments
      ensures !NoBullets(c.fragments[n])
    {
      assert !NoBullets(w.fragments[n]);
    }
  }

  /**
    A note is kept by all sequences of runs, for any versions, cut short anywhere and with
    fragments landing in between, exactly when it is a line of the changelog already, or one of
    its fragments is not wholly contained in the section of any version that is present.
  */
  lemma NoteIsKeptIff(w: World, l: string)
    requires Contains(w.text, ANCHOR) && OneLine(l) && Noted(w, l)
    ensures (forall events :: Noted(Replay(w, events), l)) <==> Safe(w, l)
  {
    AnchorHasUnreleased(w.text);
    if Safe(w, l) {
      forall events
        ensures Noted(Replay(w, events), l)
      {
        SafeNoteIsKept(w, events, l);
      }
    } else {
      var events := UnsafeNoteIsLost(w, l);
      assert !Noted(Replay(w, events), l);
    }
  }

  // ---- one version --------------------------------------------------------------------------------------------

  /** The version has its section. */
  predicate Written(w: World, version: string) {
    Contains(w.text, VersionHeader(version))
  }

  /** Runs for this version; what lands before its section is written has no line like a version header. */
  predicate EventLegal(e: Event, version: string, written: bool) {
    match e
    case Land(_, lines) => written || AllLegal(true, lines)
    case Collate(v, today, _) => v == version && (written || OneLine(today))
  }

  ghost predicate EventsLegal(events: seq<Event>, version: string, written: bool) {
    forall e :: e in events ==> EventLegal(e, version, written)
  }

  /** Some fragment carries the note and a run for `version` does not take it for folded. */
  predicate HeldFrom(w: World, version: string, l: string) {
    exists n :: n in w.fragments && HasBullet(w.fragments[n], l) && !TakenForFolded(w, version, n)
  }

  predicate SafeFor(w: World, version: string, l: string) {
    InSection(w.text, version, l) || HeldFrom(w, version, l) || Malformed(w)
  }

  lemma CutKeepsSafeFor(w: World, version: string, today: string, steps: nat, l: string)
    requires Written(w, version) && NotedFor(w, version, l) && SafeFor(w, version, l)
    ensures var c := Cut(w, version, today, steps);
      Written(c, version) && NotedFor(c, version, l) && SafeFor(c, version, l)
  {
    var c := Cut(w, version, today, steps);
    if Malformed(w) {
      MalformedStops(w, version, today, steps);
    } else {
      var gone := CutCases(w, version, today, steps);
      if !InSection(w.text, version, l) {
        var n :| n in w.fragments && HasBullet(w.fragments[n], l) && !TakenForFolded(w, version, n);
        assert n in c.fragments && !TakenForFolded(c, version, n);
      }
    }
  }

  lemma LandKeepsHeldFrom(w: World, e: Event, version: string, l: string)
    requires e.Land? && HeldFrom(w, version, l)
    ensures HeldFrom(Apply(w, e), version, l)
  {
    var n :| n in w.fragments && HasBullet(w.fragments[n], l) && !TakenForFolded(w, version, n);
    LandKeepsFragment(w, e, n);
  }

  lemma LandKeepsSafeFor(w: World, e: Event, version: string, l: string)
    requires e.Land? && NotedFor(w, version, l) && SafeFor(w, version, l)
    ensures NotedFor(Apply(w, e), version, l) && SafeFor(Apply(w, e), version, l)
  {
    if InFragments(w, l) {
      LandKeepsFragments(w, e, l);
    }
    if Malformed(w) {
      LandKeepsMalformed(w, e);
    } else if HeldFrom(w, version, l) {
      LandKeepsHeldFrom(w, e, version, l);
    }
  }

  lemma EventKeepsSafeFor(w: World, e: Event, version: string, l: string)
    requires Written(w, version) && EventLegal(e, version, true)
    requires NotedFor(w, version, l) && SafeFor(w, version, l)
    ensures var c := Apply(w, e);
      Written(c, version) && NotedFor(c, version, l) && SafeFor(c, version, l)
  {
    if e.Land? {
      LandKeepsSafeFor(w, e, version, l);
    } else {
      CutKeepsSafeFor(w, version, e.today, e.steps, l);
    }
  }

  lemma TailLegal(events: seq<Event>, version: string, written: bool)
    requires events != [] && EventsLegal(events, version, written)
    ensures EventLegal(events[0], version, written) && EventsLegal(events[1..], version, written)
    ensures EventsLegal(events[1..], version, true)
  {
    assert events[0] in events;
    assert forall e :: e in events[1..] ==> e in events;
  }

  /** Once the version has its section, a safe note outlasts all runs for it, whatever lands. */
  lemma {:induction false} SafeNoteIsKeptFor(w: World, version: string, events: seq<Event>, l: string)
    requires Written(w, version) && EventsLegal(events, version, true)
    requires NotedFor(w, version, l) && SafeFor(w, version, l)
    ensures NotedFor(Replay(w, events), version, l)
    decreases |events|
  {
    if events != [] {
      TailLegal(events, version, true);
      EventKeepsSafeFor(w, events[0], version, l);
      SafeNoteIsKeptFor(Apply(w, events[0]), version, events[1..], l);
    }
  }

  lemma UnsafeNoteIsLostFor(w: World, version: string, l: string) returns (e: Event)
    requires Contains(w.text, ANCHOR) && Written(w, version) && InFragments(w, l) && !SafeFor(w, version, l)
    ensures EventLegal(e, version, false) && !NotedFor(Replay(w, [e]), version, l)
  {
    AnchorHasUnreleased(w.text);
    var n :| n in w.fragments && HasBullet(w.fragments[n], l);
    e := Collate(version, "", |Plan(w, version, "").actions|);
    FinishIsCut(w, version, "");
    RerunKeepsNoteIff(w, version, "", l);
    LoneEvent(w, e);
  }

  lemma LoneEvent(w: World, e: Event)
    ensures Replay(w, [e]) == Apply(w, e)
  {
    assert [e][1..] == [];
  }

  // ---- complete runs ------------------------------------------------------------------------------------------

  predicate FoldRuns(w: World, version: string) {
    && w.fragments != map[] && !Malformed(w)
    && Contains(w.text, UNRELEASED) && !Contains(w.text, VersionHeader(version))
  }

  lemma FinishIsCut(w: World, version: string, today: string)
    ensures Finish(w, version, today) == Cut(w, version, today, |Plan(w, version, today).actions|)
  {
    var actions := Plan(w, version, today).actions;
    assert actions[..|actions|] == actions;
  }

  lemma FoldFinishes(w: World, version: string, today: string)
    requires FoldRuns(w, version)
    ensures Finish(w, version, today) == World(Folded(w.text, Section(version, Merged(w), today)), map[])
  {
    var names := Sorted(w.fragments.Keys);
    assert names != [] by {
      var n :| n in w.fragments;
      assert n in names;
    }
    var write := Write(Folded(w.text, Section(version, Merged(w), today)));
    PerformFirst(w, write, Unlinks(names));
    PerformUnlinks(Step(w, write), names);
    assert w.fragments - (set n | n in names) == map[];
  }

  /**
    A fold that runs to its end writes the new notes down exactly when the anchor line ends in
    a newline; without it the text stays as it was and the fragments are deleted all the same.
  */
  lemma FoldKeepsNotesIff(w: World, version: string, today: string, l: string)
    requires FoldRuns(w, version) && InFragments(w, l) && !HasLine(w.text, l)
    ensures Noted(Finish(w, version, today), l) <==> Contains(w.text, ANCHOR)
  {
    FoldFinishes(w, version, today);
    if Contains(w.text, ANCHOR) {
      var n :| n in w.fragments && HasBullet(w.fragments[n], l);
      FoldNotes(w, version, today, n, l);
    } else {
      assert Folded(w.text, Section(version, Merged(w), today)) == w.text;
    }
  }

  /** A rerun consumes exactly the fragments whose every bullet is in the version's section. */
  lemma RerunConsumesFolded(w: World, version: string, today: string, n: string)
    requires Contains(w.text, UNRELEASED) && Contains(w.text, VersionHeader(version)) && !Malformed(w)
    ensures Finish(w, version, today).text == w.text
    ensures n in Finish(w, version, today).fragments
       <==> n in w.fragments && !AllFound(w.fragments[n], SectionText(w.text, version))
  {
    var names := Sorted(w.fragments.Keys);
    if names == [] {
      assert n !in names;
    } else {
      PerformUnlinks(w, FoldedNames(w, SectionText(w.text, version), names));
    }
  }

  /** A complete rerun keeps a note exactly when it is a line of the section or a fragment that carries it is kept. */
  lemma RerunKeepsNoteIff(w: World, version: string, today: string, l: string)
    requires Contains(w.text, UNRELEASED) && Contains(w.text, VersionHeader(version)) && !Malformed(w)
    ensures NotedFor(Finish(w, version, today), version, l)
       <==> InSection(w.text, version, l) || HeldFrom(w, version, l)
  {
    var c := Finish(w, version, today);
    FinishIsCut(w, version, today);
    var gone := CutCases(w, version, today, |Plan(w, version, today).actions|);
    forall n
      ensures n in c.fragments <==> n in w.fragments && !TakenForFolded(w, version, n)
    {
      RerunConsumesFolded(w, version, today, n);
    }
    if HeldFrom(w, version, l) {
      var n :| n in w.fragments && HasBullet(w.fragments[n], l) && !TakenForFolded(w, version, n);
      assert n in c.fragments;
    }
    if InFragments(c, l) {
      var n :| n in c.fragments && HasBullet(c.fragments[n], l);
      assert n in w.fragments;
    }
  }

  /** The rerun removes fragment `n`, although its bullet `l` is only part of a line of the section. */
  predicate Overlooked(w: World, version: string, n: string, l: string) {
    && n in w.fragments && TakenForFolded(w, version, n) && HasBullet(w.fragments[n], l)
    && !HasLine(SectionText(w.text, version), l)
  }

  /**
    A complete rerun keeps every note exactly when each bullet it overlooks is carried by a
    fragment it keeps as well.
  */
  lemma RerunKeepsEveryNoteIff(w: World, version: string, today: string)
    requires Contains(w.text, UNRELEASED) && Contains(w.text, VersionHeader(version)) && !Malformed(w)
    ensures (forall l :: NotedFor(w, version, l) ==> NotedFor(Finish(w, version, today), version, l))
       <==> (forall n, l :: Overlooked(w, version, n, l) ==> HeldFrom(w, version, l))
  {
    forall l
      ensures NotedFor(Finish(w, version, today), version, l)
         <==> InSection(w.text, version, l) || HeldFrom(w, version, l)
    {
      RerunKeepsNoteIff(w, version, today, l);
    }
    forall n, l | Overlooked(w, version, n, l)
      ensures NotedFor(w, version, l) && !InSection(w.text, version, l)
    {
    }
    forall l | InFragments(w, l) && !InSection(w.text, version, l) && !HeldFrom(w, version, l)
      ensures exists n :: Overlooked(w, version, n, l)
    {
      var n :| n in w.fragments && HasBullet(w.fragments[n], l);
      assert Overlooked(w, version, n, l);
    }
  }

  lemma {:induction false} FoldedNamesAll(w: World, section: string, names: seq<string>)
    requires forall n :: n in names ==> n in w.fragments
    ensures FoldedNames(w, section, names) == names
       <==> forall n :: n in names ==> AllFound(w.fragments[n], section)
  {
    if names != [] {
      FoldedNamesAll(w, section, names[1..]);
      assert names == [names[0]] + names[1..];
      assert names[0] in names;
    }
  }

  lemma RerunExit(w: World, version: string, today: string, names: seq<string>)
    requires names == Sorted(w.fragments.Keys) && names != []
    requires Contains(w.text, UNRELEASED) && Contains(w.text, VersionHeader(version)) && !Malformed(w)
    ensures Plan(w, version, today).code == 0 <==> Finish(w, version, today).fragments == map[]
  {
    var section := SectionText(w.text, version);
    FoldedNamesAll(w, section, names);
    forall n
      ensures n in Finish(w, version, today).fragments <==> n in names && !AllFound(w.fragments[n], section)
    {
      RerunConsumesFolded(w, version, today, n);
    }
    var left := Finish(w, version, today).fragments;
    if FoldedNames(w, section, names) == names {
      assert forall n :: n in left ==> n in names;
      assert left == map[];
    } else {
      var n :| n in names && !AllFound(w.fragments[n], section);
      assert n in left;
    }
  }

  /** The exit code is 0 when no fragment is left, and 1 otherwise. */
  lemma ExitZeroIffConsumed(w: World, version: string, today: string)
    ensures Plan(w, version, today).code == if Finish(w, version, today).fragments == map[] then 0 else 1
  {
    var names := Sorted(w.fragments.Keys);
    if names == [] {
      assert forall n :: n in w.fragments ==> n in names;
    } else {
      assert names[0] in w.fragments;
      if FoldRuns(w, version) {
        FoldFinishes(w, version, today);
      } else if !Malformed(w) && Contains(w.text, UNRELEASED) {
        RerunExit(w, version, today, names);
      }
    }
  }
}
