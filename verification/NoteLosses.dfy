/**
  Two changelogs whose notes scripts/collate_changelog.py deletes while it reports success, and one
  whose note it files where no rerun looks for it.
*/
module NoteLosses {
  import opened Wrappers
  import opened TextSearch
  import opened Text
  import opened Changelog
  import opened CollateRuns
  import opened FoldedSections
  import opened CollateSafety
  import opened NoteFronts
  import opened VersionNotes

  // ---- the anchor without its newline ---------------------------------------------------------------------

  lemma AtMeans(s: string, p: string, i: nat, k: nat)
    requires k < |p|
    ensures At(s, p, i) ==> i + k < |s| && s[i + k] == p[k]
  {
  }

  lemma LacksCharacter(s: string, p: string, k: nat)
    requires k < |p| && p[k] !in s
    ensures !Contains(s, p)
  {
    forall i: nat
      ensures !At(s, p, i)
    {
      AtMeans(s, p, i, k);
    }
  }

  /** Without the newline the script deletes the notes and reports success. */
  lemma NotesLost(w: World, version: string, today: string, l: string)
    requires FoldRuns(w, version) && InFragments(w, l) && !Contains(w.text, l) && !Contains(w.text, ANCHOR)
    ensures Plan(w, version, today).code == 0 && !Noted(Finish(w, version, today), l)
  {
    FoldKeepsNotesIff(w, version, today, l);
    FoldFinishes(w, version, today);
    ExitZeroIffConsumed(w, version, today);
  }

  lemma OneFragment(w: World, name: string, lines: seq<string>, l: string)
    requires w.fragments == map[name := lines] && HasBullet(lines, l)
    ensures w.fragments != map[] && !Malformed(w) && InFragments(w, l)
  {
    assert name in w.fragments;
  }

  lemma UnreleasedSpelled(c: char)
    requires c == '1' || c == 'o'
    ensures c !in UNRELEASED
  {
    assert UNRELEASED == ['#', '#', ' ', '[', 'U', 'n', 'r', 'e', 'l', 'e', 'a', 's', 'e', 'd', ']'];
  }

  lemma BareAnchor()
    ensures Contains(UNRELEASED, UNRELEASED) && !Contains(UNRELEASED, ANCHOR)
    ensures !Contains(UNRELEASED, VersionHeader("1.0")) && !Contains(UNRELEASED, "- note")
  {
    assert At(UNRELEASED, UNRELEASED, 0);
    forall i: nat
      ensures !At(UNRELEASED, ANCHOR, i)
    {
      assert |ANCHOR| > |UNRELEASED|;
    }
    UnreleasedSpelled('1');
    UnreleasedSpelled('o');
    assert VersionHeader("1.0")[4] == '1' && "- note"[3] == 'o';
    LacksCharacter(UNRELEASED, VersionHeader("1.0"), 4);
    LacksCharacter(UNRELEASED, "- note", 3);
  }

  lemma ExampleRuns() returns (w: World, version: string, l: string)
    ensures w == World(UNRELEASED, map["note.md" := ["- note"]]) && version == "1.0" && l == "- note"
    ensures FoldRuns(w, version) && InFragments(w, l)
    ensures !Contains(w.text, l) && !Contains(w.text, ANCHOR)
  {
    version, l := "1.0", "- note";
    w := World(UNRELEASED, map["note.md" := [l]]);
    assert l[0] != HEADING[0];
    RStripKeeps(l);
    assert IsNote([l][0]);
    OneFragment(w, "note.md", [l], l);
    BareAnchor();
  }

  /** One note, one changelog that is just its anchor without a newline: the note is gone. */
  lemma NotesLostExample(today: string) returns (w: World, version: string, l: string)
    ensures w == World(UNRELEASED, map["note.md" := ["- note"]]) && version == "1.0" && l == "- note"
    ensures InFragments(w, l)
    ensures Plan(w, version, today).code == 0 && !Noted(Finish(w, version, today), l)
  {
    w, version, l := ExampleRuns();
    NotesLost(w, version, today, l);
  }

  // ---- a note that is part of another ----------------------------------------------------------------------

  const SHADOWING := "## [Unreleased]\n## [1]\n- ab\n"

  /** Where the header's digit, the `#` of a mark and the dash of a note stand. */
  lemma ShadowingSpelled(k: nat)
    requires k < |SHADOWING|
    ensures SHADOWING[k] == '1' ==> k == 20
    ensures SHADOWING[k] == '#' ==> k < 20
    ensures SHADOWING[k] == '-' ==> k == 23
  {
    assert SHADOWING == ['#', '#', ' ', '[', 'U', 'n', 'r', 'e', 'l', 'e', 'a', 's', 'e', 'd', ']', '\n',
                         '#', '#', ' ', '[', '1', ']', '\n', '-', ' ', 'a', 'b', '\n'];
  }

  lemma ShadowingHeader()
    ensures Contains(SHADOWING, VersionHeader("1")) && Find(SHADOWING, VersionHeader("1"), 0) == Some(16)
  {
    var header := VersionHeader("1");
    assert header == "## [1]" && At(SHADOWING, header, 16);
    forall j: nat
      ensures At(SHADOWING, header, j) ==> j == 16
    {
      AtMeans(SHADOWING, header, j, 4);
      if At(SHADOWING, header, j) {
        ShadowingSpelled(j + 4);
      }
    }
  }

  lemma SectionToTheEnd(text: string, version: string, start: nat)
    requires Find(text, VersionHeader(version), 0) == Some(start)
    requires forall k :: start + |VersionHeader(version)| < k < |text| ==> text[k] != '#'
    ensures Contains(text, VersionHeader(version)) && SectionText(text, version) == text[start..]
  {
    var mark, from := "\n" + MARK, start + |VersionHeader(version)|;
    assert mark[1] == '#';
    forall j: nat | from <= j
      ensures !At(text, mark, j)
    {
      AtMeans(text, mark, j, 1);
    }
    assert Find(text, mark, from) == None;
  }

  lemma NoMarkAfter(k: nat)
    requires 22 < k < |SHADOWING|
    ensures SHADOWING[k] != '#'
  {
    ShadowingSpelled(k);
  }

  lemma ShadowingSection()
    ensures Contains(SHADOWING, VersionHeader("1")) && SectionText(SHADOWING, "1") == SHADOWING[16..]
  {
    var text, version := SHADOWING, "1";
    ShadowingHeader();
    forall k | 22 < k < |text|
      ensures text[k] != '#'
    {
      NoMarkAfter(k);
    }
    assert |VersionHeader(version)| == 6;
    SectionToTheEnd(text, version, 16);
  }

  /** Where `l` begins, its end is followed by something else than a line end. */
  lemma NoWholeLine(s: string, l: string, at: nat)
    requires l != "" && at + |l| < |s| && s[at + |l|] != '\n'
    requires forall i :: 0 <= i < |s| && s[i] == l[0] ==> i == at
    ensures !HasLine(s, l)
  {
    forall i: nat
      ensures !LineAt(s, l, i)
    {
      AtMeans(s, l, i, 0);
    }
  }

  /** Every tail that begins no later than the note has its only dash where the note stands. */
  lemma NoWholeNote(from: nat, l: string)
    requires from <= 23 && l == "- a"
    ensures !HasLine(SHADOWING[from..], l)
  {
    var tail := SHADOWING[from..];
    forall i | 0 <= i < |tail| && tail[i] == l[0]
      ensures i == 23 - from
    {
      ShadowingSpelled(from + i);
    }
    ShadowingEnd();
    assert tail[26 - from] == SHADOWING[26];
    NoWholeLine(tail, l, 23 - from);
  }

  lemma ShadowingEnd()
    ensures |SHADOWING| == 28 && SHADOWING[23..26] == "- a" && SHADOWING[26] == 'b'
  {
  }

  lemma ShadowingNote()
    ensures Contains(SHADOWING[16..], "- a") && !HasLine(SHADOWING[16..], "- a") && !HasLine(SHADOWING, "- a")
  {
    NoWholeNote(16, "- a");
    NoWholeNote(0, "- a");
    assert SHADOWING[0..] == SHADOWING;
    ShadowingEnd();
    assert SHADOWING[16..][7..10] == SHADOWING[23..26];
    assert At(SHADOWING[16..], "- a", 7);
  }

  lemma ShadowingUnreleased()
    ensures Contains(SHADOWING, UNRELEASED)
  {
    assert At(SHADOWING, UNRELEASED, 0);
  }

  lemma AllBulletsIn(l: string, section: string)
    requires CleanBullet(l) && Contains(section, l)
    ensures AllFound([l], section) && HasBullet([l], l)
  {
    assert IsNote([l][0]) && RStrip([l][0]) == l;
  }

  lemma ShadowedIsTaken(w: World, version: string, name: string, l: string)
    requires w.fragments == map[name := [l]] && CleanBullet(l)
    requires Contains(w.text, VersionHeader(version)) && Contains(SectionText(w.text, version), l)
    ensures TakenForFolded(w, version, name) && InFragments(w, l) && !Malformed(w)
    ensures forall n :: n in w.fragments ==> n == name
  {
    AllBulletsIn(l, SectionText(w.text, version));
    OneFragment(w, name, [l], l);
  }

  /** "- a" lands after the run that wrote "- ab": the rerun takes it for folded, and it is gone. */
  lemma ShorterNoteLost(today: string) returns (w: World, version: string, l: string)
    ensures w == World("## [Unreleased]\n## [1]\n- ab\n", map["late.md" := ["- a"]]) && version == "1" && l == "- a"
    ensures InFragments(w, l) && Plan(w, version, today).code == 0
    ensures Finish(w, version, today) == World(w.text, map[])
    ensures !Noted(Finish(w, version, today), l) && !NotedFor(Finish(w, version, today), version, l)
  {
    version, l := "1", "- a";
    w := World(SHADOWING, map["late.md" := [l]]);
    ShadowingSection();
    ShadowingUnreleased();
    ShadowingNote();
    assert l[0] != HEADING[0];
    RStripKeeps(l);
    ShadowedIsTaken(w, version, "late.md", l);
    ShadowedIsLost(w, version, today, l);
  }

  lemma ShadowedIsLost(w: World, version: string, today: string, l: string)
    requires Contains(w.text, UNRELEASED) && Contains(w.text, VersionHeader(version)) && !Malformed(w)
    requires forall n :: n in w.fragments ==> TakenForFolded(w, version, n)
    requires !HasLine(w.text, l) && !InSection(w.text, version, l)
    ensures Plan(w, version, today).code == 0 && Finish(w, version, today) == World(w.text, map[])
    ensures !Noted(Finish(w, version, today), l) && !NotedFor(Finish(w, version, today), version, l)
  {
    var c := Finish(w, version, today);
    forall n
      ensures n !in c.fragments
    {
      RerunConsumesFolded(w, version, today, n);
    }
    RerunConsumesFolded(w, version, today, "");
    assert c.fragments == map[];
    ExitZeroIffConsumed(w, version, today);
  }

  // ---- a note behind a line like a version header ------------------------------------------------------------

  lemma TwoBullets(a: string, b: string)
    requires CleanBullet(a) && CleanBullet(b)
    ensures Parse([a, b]) == map[DEFAULT_SECTION := [a, b]]
  {
    var both := [a, b];
    assert forall l :: l in both ==> CleanBullet(l);
    ParseBullets(both, [], DEFAULT_SECTION, map[]);
    assert both + [] == both && [] + both == both;
  }

  lemma OneFileMerged(w: World, name: string, lines: seq<string>)
    requires w.fragments == map[name := lines]
    ensures Merged(w) == Parse(lines)
  {
    var names := Sorted(w.fragments.Keys);
    assert Increasing([name]) && forall x :: x in names <==> x in [name];
    SortedIsUnique(names, [name]);
    assert FilesOf(w.fragments, [name]) == [lines];
    OneFileCollected(lines);
  }

  lemma MergeEmpty(m: Sections)
    ensures Merge(map[], m) == m
  {
    assert Merge(map[], m).Keys == m.Keys;
    forall s | s in m
      ensures Merge(map[], m)[s] == m[s]
    {
      assert [] + m[s] == m[s];
    }
  }

  lemma OneFileCollected(lines: seq<string>)
    ensures Collect([lines]) == Parse(lines)
  {
    var files := [lines];
    assert files[..0] == [] && Collect(files[..0]) == map[];
    MergeEmpty(Parse(lines));
  }

  lemma NotFront(m: Sections, s: string, mark: string, l: string)
    requires m == map[DEFAULT_SECTION := [mark, l]] && IsMark(mark) && mark != l
    ensures !Front(m, s, l)
  {
    if s == DEFAULT_SECTION {
      NotLeading(mark, l);
    }
  }

  lemma BehindMark(w: World, name: string, lines: seq<string>, mark: string, l: string)
    requires w.fragments == map[name := lines] && lines == [mark, l] && IsMark(mark) && mark != l
    requires Parse(lines) == map[DEFAULT_SECTION := lines]
    ensures InFragments(w, l) && !Malformed(w) && !InFront(w, l)
  {
    var k := ParsedIsBullet(lines, DEFAULT_SECTION, l);
    OneFragment(w, name, lines, l);
    OneFileMerged(w, name, lines);
    forall s
      ensures !Front(Merged(w), s, l)
    {
      NotFront(Merged(w), s, mark, l);
    }
  }

  lemma NotLeading(mark: string, l: string)
    requires IsMark(mark) && mark != l
    ensures !Leading([mark, l], l)
  {
    forall k: nat
      ensures !Leads([mark, l], l, k)
    {
      assert k < 2 ==> [mark, l][..k + 1][0] == mark;
    }
  }

  const MARKED := "## [x"
  const BEHIND := "- a"

  lemma MarkedSpelled()
    ensures CleanBullet(MARKED) && IsMark(MARKED) && OneLine(MARKED)
    ensures CleanBullet(BEHIND) && OneLine(BEHIND)
  {
    assert MARKED[3] != HEADING[3] && BEHIND[0] != HEADING[0];
    RStripKeeps(MARKED);
    RStripKeeps(BEHIND);
  }

  lemma AnchorOnly(version: string)
    requires version == "1"
    ensures Contains(ANCHOR, ANCHOR) && !Contains(ANCHOR, VersionHeader(version)) && OneLine(version)
  {
    assert At(ANCHOR, ANCHOR, 0);
    UnreleasedSpelled('1');
    assert ANCHOR == UNRELEASED + "\n" && VersionHeader(version)[4] == '1';
    LacksCharacter(ANCHOR, VersionHeader(version), 4);
  }

  lemma TwoLinesLegal(w: World, name: string, a: string, b: string)
    requires w.fragments == map[name := [a, b]] && OneLine(a) && OneLine(b)
    ensures FragmentsLegal(false, w)
  {
  }

  lemma HiddenIn(w: World, version: string, name: string, mark: string, l: string) returns (e: Event)
    requires w.fragments == map[name := [mark, l]] && IsMark(mark) && mark != l && OneLine(mark) && OneLine(l)
    requires CleanBullet(mark) && CleanBullet(l)
    requires Contains(w.text, ANCHOR) && !Written(w, version) && OneLine(version)
    ensures NotedFor(w, version, l) && EventLegal(e, version, Written(w, version))
    ensures !NotedFor(Replay(w, [e]), version, l)
  {
    TwoBullets(mark, l);
    BehindMark(w, name, [mark, l], mark, l);
    TwoLinesLegal(w, name, mark, l);
    e := HiddenNoteIsLost(w, version, l);
  }

  /** "- a" stands behind "## [x" in its fragment: one complete run files it where no rerun for the version finds it. */
  lemma HiddenNoteExample() returns (w: World, version: string, e: Event)
    ensures w == World("## [Unreleased]\n", map["a.md" := ["## [x", "- a"]]) && version == "1"
    ensures NotedFor(w, version, "- a") && EventLegal(e, version, Written(w, version))
    ensures !NotedFor(Replay(w, [e]), version, "- a")
  {
    w, version := World(ANCHOR, map["a.md" := [MARKED, BEHIND]]), "1";
    MarkedSpelled();
    AnchorOnly(version);
    e := HiddenIn(w, version, "a.md", MARKED, BEHIND);
  }
}
