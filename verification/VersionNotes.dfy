/**
  Which notes all runs of scripts/collate_changelog.py for one version keep, in a fragment or as a
  line of that version's section as a rerun reads it.
*/
module VersionNotes {
  import opened Wrappers
  import opened TextSearch
  import opened Text
  import opened Changelog
  import opened CollateRuns
  import opened FoldedSections
  import opened CollateSafety
  import opened NoteFronts

  // ---- a fragment lands ------------------------------------------------------------------------------

  predicate Increasing(s: seq<string>) {
    forall i, j :: 0 <= i < j < |s| ==> TextBefore(s[i], s[j])
  }

  lemma SomeElement(s: seq<string>) returns (x: string)
    requires s != []
    ensures x in s
  {
    x := s[0];
  }

  lemma {:induction false} SortedIsUnique(a: seq<string>, b: seq<string>)
    requires Increasing(a) && Increasing(b) && forall x :: x in a <==> x in b
    ensures a == b
    decreases |a|
  {
    if a == [] {
      if b != [] {
        var x := SomeElement(b);
        assert false;
      }
    } else if b == [] {
      var x := SomeElement(a);
      assert false;
    } else {
      FirstIsLeast(a, b);
      FirstIsLeast(b, a);
      if a[0] != b[0] {
        TextBeforeAsymmetric(a[0], b[0]);
      }
      TailsAlike(a, b);
      SortedIsUnique(a[1..], b[1..]);
      assert a == [a[0]] + a[1..] && b == [b[0]] + b[1..];
    }
  }

  lemma FirstIsLeast(a: seq<string>, b: seq<string>)
    requires a != [] && b != [] && Increasing(a) && b[0] in a
    ensures a[0] == b[0] || TextBefore(a[0], b[0])
  {
  }

  lemma TailsAlike(a: seq<string>, b: seq<string>)
    requires a != [] && b != [] && a[0] == b[0] && Increasing(a) && Increasing(b) && forall x :: x in a <==> x in b
    ensures forall x :: x in a[1..] <==> x in b[1..]
  {
    OnlyOnce(a);
    OnlyOnce(b);
    forall x
      ensures x in a[1..] <==> x in b[1..]
    {
      assert x in a <==> x == a[0] || x in a[1..];
      assert x in b <==> x == b[0] || x in b[1..];
    }
  }

  lemma OnlyOnce(a: seq<string>)
    requires a != [] && Increasing(a)
    ensures a[0] !in a[1..] && a == [a[0]] + a[1..]
  {
    forall j | 1 <= j < |a|
      ensures a[j] != a[0]
    {
      if a[j] == a[0] {
        TextBeforeAsymmetric(a[0], a[j]);
      }
    }
  }

  function Dropped(all: seq<string>, i: nat): seq<string>
    requires i < |all|
  {
    all[..i] + all[i + 1..]
  }

  lemma DroppedIncreasing(all: seq<string>, i: nat)
    requires i < |all| && Increasing(all)
    ensures Increasing(Dropped(all, i))
  {
  }

  lemma PutBack(all: seq<string>, i: nat)
    requires i < |all|
    ensures i <= |Dropped(all, i)|
    ensures all == Dropped(all, i)[..i] + [all[i]] + Dropped(all, i)[i..]
  {
  }

  /** Sorting one more name puts it somewhere among the others. */
  lemma SortedInsert(keys: set<string>, n: string) returns (i: nat)
    requires n !in keys
    ensures i <= |Sorted(keys)| && Sorted(keys + {n}) == Sorted(keys)[..i] + [n] + Sorted(keys)[i..]
  {
    var all := Sorted(keys + {n});
    i :| 0 <= i < |all| && all[i] == n;
    forall x
      ensures x in Dropped(all, i) <==> x in Sorted(keys)
    {
      Others(all, i, x);
    }
    DroppedIncreasing(all, i);
    SortedIsUnique(Dropped(all, i), Sorted(keys));
    PutBack(all, i);
  }

  lemma Others(all: seq<string>, i: nat, x: string)
    requires i < |all| && Distinct(all)
    ensures x in Dropped(all, i) <==> x in all && x != all[i]
  {
    var others := Dropped(all, i);
    if x in all && x != all[i] {
      var j :| 0 <= j < |all| && all[j] == x;
      assert others[if j < i then j else j - 1] == x;
    }
    if x in others {
      var j :| 0 <= j < |others| && others[j] == x;
      assert all[if j < i then j else j + 1] == x;
    }
  }

  lemma {:induction false} GatheredConcat(a: seq<seq<string>>, b: seq<seq<string>>, s: string)
    ensures Gathered(a + b, s) == Gathered(a, s) + Gathered(b, s)
    decreases |b|
  {
    if b == [] {
      assert a + b == a;
    } else {
      var n := |b| - 1;
      assert (a + b)[..|a + b| - 1] == a + b[..n];
      GatheredConcat(a, b[..n], s);
      Regroup(Gathered(a, s), Gathered(b[..n], s), LinesIn(Parse(b[n]), s));
    }
  }

  /** What a section receives with one more fragment: the same lines, with that fragment's somewhere among them. */
  lemma GatheredInsert(a: seq<seq<string>>, f: seq<string>, b: seq<seq<string>>, s: string)
    ensures Gathered(a + [f] + b, s) == Gathered(a, s) + LinesIn(Parse(f), s) + Gathered(b, s)
    ensures Gathered(a + b, s) == Gathered(a, s) + Gathered(b, s)
  {
    GatheredConcat(a, b, s);
    GatheredConcat(a + [f], b, s);
    assert (a + [f])[..|a|] == a;
  }

  lemma FilesConcat(fragments: map<string, seq<string>>, a: seq<string>, b: seq<string>)
    requires forall n :: n in a || n in b ==> n in fragments
    ensures FilesOf(fragments, a + b) == FilesOf(fragments, a) + FilesOf(fragments, b)
  {
  }

  lemma FilesUnchanged(fragments: map<string, seq<string>>, name: string, lines: seq<string>, names: seq<string>)
    requires name !in names && forall n :: n in names ==> n in fragments
    ensures FilesOf(fragments[name := lines], names) == FilesOf(fragments, names)
  {
    assert forall i :: 0 <= i < |names| ==> names[i] in names;
  }

  lemma LandedAmong(fragments: map<string, seq<string>>, name: string, lines: seq<string>, a: seq<string>, b: seq<string>)
    requires name !in a && name !in b && forall n :: n in a || n in b ==> n in fragments
    ensures FilesOf(fragments[name := lines], a + [name] + b) == FilesOf(fragments, a) + [lines] + FilesOf(fragments, b)
  {
    var later := fragments[name := lines];
    FilesConcat(later, a + [name], b);
    FilesConcat(later, a, [name]);
    FilesUnchanged(fragments, name, lines, a);
    FilesUnchanged(fragments, name, lines, b);
    assert FilesOf(later, [name]) == [lines];
  }

  lemma Halves(names: seq<string>, i: nat)
    requires i <= |names|
    ensures names == names[..i] + names[i..]
    ensures forall n :: n in names[..i] || n in names[i..] ==> n in names
  {
  }

  lemma LandedFiles(w: World, name: string, lines: seq<string>) returns (a: seq<seq<string>>, b: seq<seq<string>>)
    requires name !in w.fragments
    ensures FilesOf(w.fragments, Sorted(w.fragments.Keys)) == a + b
    ensures var c := w.(fragments := w.fragments[name := lines]);
      FilesOf(c.fragments, Sorted(c.fragments.Keys)) == a + [lines] + b
  {
    var names := Sorted(w.fragments.Keys);
    var i := SortedInsert(w.fragments.Keys, name);
    var before, after := names[..i], names[i..];
    assert w.fragments[name := lines].Keys == w.fragments.Keys + {name};
    Halves(names, i);
    a, b := FilesOf(w.fragments, before), FilesOf(w.fragments, after);
    FilesConcat(w.fragments, before, after);
    LandedAmong(w.fragments, name, lines, before, after);
  }

  lemma NewLinesHaveNoMarks(lines: seq<string>, s: string)
    requires AllLegal(true, lines)
    ensures NoMarks(LinesIn(Parse(lines), s))
  {
    DefaultIsLegal(true);
    ParseFromLegal(true, lines, DEFAULT_SECTION, map[]);
    if s in Parse(lines) {
      forall k | 0 <= k < |Parse(lines)[s]|
        ensures !IsMark(Parse(lines)[s][k])
      {
        assert Parse(lines)[s][k] in Parse(lines)[s];
      }
    }
  }

  lemma LeadingInsert(x: seq<string>, added: seq<string>, y: seq<string>, l: string)
    requires Leading(x + y, l) && NoMarks(added)
    ensures Leading(x + added + y, l)
  {
    var k: nat :| Leads(x + y, l, k);
    if k < |x| {
      LeadsInFirst(x, y, l, k);
      LeadsInFirst(x, added + y, l, k);
      Regroup(x, added, y);
    } else {
      LeadsInSecond(x, y, l, k);
      LeadsInSecond(added, y, l, k - |x|);
      LeadsInSecond(x, added + y, l, |added| + (k - |x|));
      Regroup(x, added, y);
    }
  }

  lemma NoMarksInsert(x: seq<string>, added: seq<string>, y: seq<string>)
    requires NoMarks(x + y) && NoMarks(added)
    ensures NoMarks(x + added + y)
  {
    assert forall k :: 0 <= k < |x| ==> x[k] == (x + y)[k];
    assert forall k :: 0 <= k < |y| ==> y[k] == (x + y)[|x| + k];
  }

  /** A fragment without marks that lands keeps the note in front of all marks. */
  lemma LandKeepsFront(w: World, name: string, lines: seq<string>, l: string)
    requires name !in w.fragments && AllLegal(true, lines) && InFront(w, l)
    ensures InFront(w.(fragments := w.fragments[name := lines]), l)
  {
    var c := w.(fragments := w.fragments[name := lines]);
    var a, b := LandedFiles(w, name, lines);
    forall s
      ensures LinesIn(Merged(w), s) == Gathered(a, s) + Gathered(b, s)
      ensures LinesIn(Merged(c), s) == Gathered(a, s) + LinesIn(Parse(lines), s) + Gathered(b, s)
    {
      CollectGathers(a + b, s);
      CollectGathers(a + [lines] + b, s);
      GatheredInsert(a, lines, b, s);
    }
    var s :| Front(Merged(w), s, l);
    NewLinesHaveNoMarks(lines, s);
    LeadingInsert(Gathered(a, s), LinesIn(Parse(lines), s), Gathered(b, s), l);
    forall t | SectionBefore(t, s)
      ensures NoMarks(LinesIn(Merged(c), t))
    {
      NewLinesHaveNoMarks(lines, t);
      NoMarksInsert(Gathered(a, t), LinesIn(Parse(lines), t), Gathered(b, t));
    }
    assert Front(Merged(c), s, l);
  }

  // ---- all runs for one version -------------------------------------------------------------------------------

  /** Waiting for the first fold, and bound to be filed by it unless a malformed fragment stops all runs. */
  ghost predicate Ready(w: World, l: string) {
    FragmentsLegal(false, w) && InFragments(w, l) && (Malformed(w) || InFront(w, l))
  }

  lemma LandKeepsLegal(w: World, e: Event)
    requires e.Land? && AllLegal(true, e.lines) && FragmentsLegal(false, w)
    ensures FragmentsLegal(false, Apply(w, e)) && Apply(w, e).text == w.text
  {
  }

  lemma LandKeepsReady(w: World, e: Event, l: string)
    requires e.Land? && AllLegal(true, e.lines) && Ready(w, l)
    ensures Ready(Apply(w, e), l) && Apply(w, e).text == w.text
  {
    LandKeepsLegal(w, e);
    LandKeepsFragments(w, e, l);
    if Malformed(w) {
      LandKeepsMalformed(w, e);
    } else if e.name !in w.fragments {
      LandKeepsFront(w, e.name, e.lines, l);
    }
  }

  lemma ReadyIsFiled(w: World, version: string, today: string, l: string)
    requires Contains(w.text, ANCHOR) && !Written(w, version) && OneLine(version) && OneLine(today) && Ready(w, l)
    ensures Malformed(w) || InSection(Folded(w.text, Section(version, Merged(w), today)), version, l)
  {
    if !Malformed(w) {
      var n :| n in w.fragments && HasBullet(w.fragments[n], l);
      FiledIff(w, version, today, n, l);
    }
  }

  lemma SameOrFolded(w: World, c: World, gone: set<string>, folded: string)
    requires c.fragments == w.fragments - gone && ((c.text == w.text && gone == {}) || c.text == folded)
    ensures c == w || c.text == folded
  {
    if gone == {} {
      assert w.fragments - gone == w.fragments;
    }
  }

  lemma UnwrittenCut(w: World, version: string, today: string, steps: nat)
    requires !Written(w, version)
    ensures var c := Cut(w, version, today, steps);
      c == w || c.text == Folded(w.text, Section(version, Merged(w), today))
  {
    var gone := CutCases(w, version, today, steps);
    SameOrFolded(w, Cut(w, version, today, steps), gone, Folded(w.text, Section(version, Merged(w), today)));
  }

  /** A run for a version without a section leaves everything as it is, or files the note. */
  lemma FirstRunFiles(w: World, version: string, today: string, steps: nat, l: string)
    requires Contains(w.text, ANCHOR) && !Written(w, version) && OneLine(version) && OneLine(today) && Ready(w, l)
    ensures Cut(w, version, today, steps) == w || InSection(Cut(w, version, today, steps).text, version, l)
  {
    if Malformed(w) {
      MalformedStops(w, version, today, steps);
    } else {
      UnwrittenCut(w, version, today, steps);
      ReadyIsFiled(w, version, today, l);
    }
  }

  lemma {:induction false} ReadyNoteIsKept(w: World, version: string, events: seq<Event>, l: string)
    requires Contains(w.text, ANCHOR) && !Written(w, version) && OneLine(version) && Ready(w, l)
    requires EventsLegal(events, version, false)
    ensures NotedFor(Replay(w, events), version, l)
    decreases |events|
  {
    if events != [] {
      var e := events[0];
      TailLegal(events, version, false);
      if e.Land? {
        LandKeepsReady(w, e, l);
        ReadyNoteIsKept(Apply(w, e), version, events[1..], l);
      } else {
        FirstRunFiles(w, version, e.today, e.steps, l);
        if Apply(w, e) == w {
          ReadyNoteIsKept(w, version, events[1..], l);
        } else {
          SafeNoteIsKeptFor(Apply(w, e), version, events[1..], l);
        }
      }
    }
  }

  /** A day on which the note is not the line the section begins with. */
  function OtherDay(version: string, l: string): (today: string)
    ensures OneLine(today) && l != FirstLine(version, today)
  {
    if l == FirstLine(version, "") then DayMatters(version); "x" else ""
  }

  lemma DayMatters(version: string)
    ensures FirstLine(version, "x") != FirstLine(version, "")
  {
    assert |FirstLine(version, "x")| == |FirstLine(version, "")| + 1;
  }

  /** A note behind a mark is lost to the version in one complete run. */
  lemma HiddenNoteIsLost(w: World, version: string, l: string) returns (e: Event)
    requires Contains(w.text, ANCHOR) && !Written(w, version) && OneLine(version) && FragmentsLegal(false, w)
    requires InFragments(w, l) && !Malformed(w) && !InFront(w, l)
    ensures EventLegal(e, version, false) && !NotedFor(Replay(w, [e]), version, l)
  {
    var today := OtherDay(version, l);
    var n :| n in w.fragments && HasBullet(w.fragments[n], l);
    e := Collate(version, today, |Plan(w, version, today).actions|);
    AnchorHasUnreleased(w.text);
    FinishIsCut(w, version, today);
    FoldFinishes(w, version, today);
    FiledIff(w, version, today, n, l);
    LoneEvent(w, e);
  }

  /** What keeps a note: before the section is written, its place in it; afterwards, safety from the guard of reruns. */
  ghost predicate KeptFor(w: World, version: string, l: string) {
    if Written(w, version) then SafeFor(w, version, l) else Malformed(w) || InFront(w, l)
  }

  /**
    All runs for a version keep a note, in a fragment or as a line of the version's own section,
    exactly in these cases.  Before the section is written: no line like a version header is rendered
    in front of the note, or a malformed fragment stops all runs.  Afterwards, whatever lands: the
    note is such a line already, or one of its fragments is not wholly contained in the section.
  */
  lemma NoteIsKeptForVersionIff(w: World, version: string, l: string)
    requires Contains(w.text, ANCHOR) && OneLine(version) && FragmentsLegal(false, w) && NotedFor(w, version, l)
    ensures (forall events :: EventsLegal(events, version, Written(w, version)) ==> NotedFor(Replay(w, events), version, l))
       <==> KeptFor(w, version, l)
  {
    if KeptFor(w, version, l) {
      forall events | EventsLegal(events, version, Written(w, version))
        ensures NotedFor(Replay(w, events), version, l)
      {
        if Written(w, version) {
          SafeNoteIsKeptFor(w, version, events, l);
        } else {
          ReadyNoteIsKept(w, version, events, l);
        }
      }
    } else {
      var e: Event;
      if Written(w, version) {
        e := UnsafeNoteIsLostFor(w, version, l);
      } else {
        e := HiddenNoteIsLost(w, version, l);
      }
      assert EventsLegal([e], version, Written(w, version));
    }
  }

  lemma LeadingAnywhere(lines: seq<string>, l: string)
    requires l in lines && NoMarks(lines)
    ensures Leading(lines, l)
  {
    var k: nat :| k < |lines| && lines[k] == l;
    var upTo := lines[..k + 1];
    assert forall j :: 0 <= j < |upTo| ==> upTo[j] == lines[j];
    assert Leads(lines, l, k);
  }

  lemma LegalHasNoMarks(m: Sections, s: string)
    requires SectionsLegal(true, m)
    ensures NoMarks(LinesIn(m, s))
  {
    assert s in m ==> forall k :: 0 <= k < |m[s]| ==> m[s][k] in m[s];
  }

  /** Where no fragment holds a line like a version header, every note is in front. */
  lemma WithoutMarksAllAreInFront(w: World, l: string)
    requires FragmentsLegal(true, w) && InFragments(w, l)
    ensures InFront(w, l)
  {
    var m := Merged(w);
    MergedLegal(true, w);
    forall t
      ensures NoMarks(LinesIn(m, t))
    {
      LegalHasNoMarks(m, t);
    }
    var n :| n in w.fragments && HasBullet(w.fragments[n], l);
    var s := MergedHas(w, n, l);
    LeadingAnywhere(LinesIn(m, s), l);
    assert Front(m, s, l);
  }
}
