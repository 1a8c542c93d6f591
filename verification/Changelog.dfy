/**
  Changelog fragments (scripts/collate_changelog.py): parsing, merging and rendering, on lines.
*/
module Changelog {
  import opened Wrappers
  import opened Text

  /** Bullet lines by section heading. */
  type Sections = map<string, seq<string>>

  const HEADING := "### "
  const DEFAULT_SECTION := "### Added"
  const SECTION_ORDER := ["### Added", "### Changed", "### Fixed", "### Removed", "### Security"]

  function LinesIn(m: Sections, section: string): seq<string> {
    if section in m then m[section] else []
  }

  function Append(m: Sections, section: string, lines: seq<string>): Sections {
    m[section := LinesIn(m, section) + lines]
  }

  // ---- parsing --------------------------------------------------------------------------------------

  predicate IsHeading(line: string) {
    HEADING <= line
  }

  function ParseFrom(lines: seq<string>, current: string, sections: Sections): Sections
    decreases |lines|
  {
    if lines == [] then sections else
      var line := RStrip(lines[0]);
      if line == "" then ParseFrom(lines[1..], current, sections)
      else if IsHeading(line) then ParseFrom(lines[1..], Strip(line), sections)
      else ParseFrom(lines[1..], current, Append(sections, current, [line]))
  }

  function Parse(lines: seq<string>): Sections {
    ParseFrom(lines, DEFAULT_SECTION, map[])
  }

  /** A heading as parsing leaves it. */
  predicate CleanHeading(s: string) {
    IsHeading(s) && RStrip(s) == s && Strip(s) == s
  }

  /** A bullet as parsing leaves it. */
  predicate CleanBullet(l: string) {
    l != "" && RStrip(l) == l && !IsHeading(l)
  }

  predicate WellFormed(m: Sections) {
    forall s :: s in m ==> CleanHeading(s) && m[s] != [] && forall l :: l in m[s] ==> CleanBullet(l)
  }

  lemma {:induction false} RStripTwice(s: string)
    ensures RStrip(RStrip(s)) == RStrip(s)
  {
    if s != "" && IsSpace(s[|s| - 1]) {
      RStripTwice(s[..|s| - 1]);
    }
  }

  lemma HeadingIsClean(line: string)
    requires IsHeading(line) && RStrip(line) == line
    ensures Strip(line) == line && CleanHeading(line)
  {
    assert line[0] == HEADING[0] == '#';
    LStripKeeps(line);
  }

  lemma DefaultIsClean()
    ensures CleanHeading(DEFAULT_SECTION)
  {
    assert DEFAULT_SECTION[|DEFAULT_SECTION| - 1] == 'd';
    RStripKeeps(DEFAULT_SECTION);
    HeadingIsClean(DEFAULT_SECTION);
  }

  lemma {:induction false} ParseFromWellFormed(lines: seq<string>, current: string, sections: Sections)
    requires WellFormed(sections) && CleanHeading(current)
    ensures WellFormed(ParseFrom(lines, current, sections))
    decreases |lines|
  {
    if lines != [] {
      var line := RStrip(lines[0]);
      RStripTwice(lines[0]);
      if line == "" {
        ParseFromWellFormed(lines[1..], current, sections);
      } else if IsHeading(line) {
        HeadingIsClean(line);
        ParseFromWellFormed(lines[1..], line, sections);
      } else {
        ParseFromWellFormed(lines[1..], current, Append(sections, current, [line]));
      }
    }
  }

  lemma ParseWellFormed(lines: seq<string>)
    ensures WellFormed(Parse(lines))
  {
    DefaultIsClean();
    ParseFromWellFormed(lines, DEFAULT_SECTION, map[]);
  }

  // ---- what a fragment says, line by line ------------------------------------------------------------

  predicate HeadingLine(raw: string) {
    "### " <= RStrip(raw)
  }

  /** Neither blank nor a heading. */
  predicate IsNote(raw: string) {
    RStrip(raw) != "" && !HeadingLine(raw)
  }

  /** The nearest heading line above line `k`, without the blanks at its end; at the top of the file, the default. */
  function HeadingOver(lines: seq<string>, k: nat): string
    requires k <= |lines|
  {
    if k == 0 then "### Added"
    else if HeadingLine(lines[k - 1]) then RStrip(lines[k - 1])
    else HeadingOver(lines, k - 1)
  }

  lemma {:induction false} HeadingOverIsNearest(lines: seq<string>, k: nat, j: nat)
    requires j <= k <= |lines| && forall i :: j <= i < k ==> !HeadingLine(lines[i])
    ensures j == 0 ==> HeadingOver(lines, k) == "### Added"
    ensures j > 0 && HeadingLine(lines[j - 1]) ==> HeadingOver(lines, k) == RStrip(lines[j - 1])
  {
    if j < k {
      HeadingOverIsNearest(lines, k - 1, j);
    }
  }

  /** Line `k` is a note of section `s`. */
  predicate NoteOf(lines: seq<string>, k: nat, s: string)
    requires k < |lines|
  {
    IsNote(lines[k]) && HeadingOver(lines, k) == s
  }

  /**
    `notes` are the lines at the increasing positions `at`, stripped at the end: all notes of section
    `s` among the first `n` lines.
  */
  predicate ListsNotes(lines: seq<string>, n: nat, notes: seq<string>, at: seq<nat>, s: string)
    requires n <= |lines|
  {
    && |notes| == |at|
    && (forall i :: 0 <= i < |at| ==> at[i] < n && notes[i] == RStrip(lines[at[i]]))
    && (forall i, j :: 0 <= i < j < |at| ==> at[i] < at[j])
    && (forall k :: 0 <= k < n ==> (k in at <==> NoteOf(lines, k, s)))
  }

  ghost predicate NotesAre(lines: seq<string>, n: nat, notes: seq<string>, s: string)
    requires n <= |lines|
  {
    exists at :: ListsNotes(lines, n, notes, at, s)
  }

  lemma NoteAdded(lines: seq<string>, n: nat, notes: seq<string>, s: string)
    requires n < |lines| && NotesAre(lines, n, notes, s) && NoteOf(lines, n, s)
    ensures NotesAre(lines, n + 1, notes + [RStrip(lines[n])], s)
  {
    var at :| ListsNotes(lines, n, notes, at, s);
    NoteAddedAt(lines, n, notes, at, s);
  }

  lemma NoteAddedAt(lines: seq<string>, n: nat, notes: seq<string>, at: seq<nat>, s: string)
    requires n < |lines| && ListsNotes(lines, n, notes, at, s) && NoteOf(lines, n, s)
    ensures ListsNotes(lines, n + 1, notes + [RStrip(lines[n])], at + [n], s)
  {
    var later := at + [n];
    assert later[|at|] == n;
    assert forall k :: k in at ==> k in later;
  }

  lemma NothingAdded(lines: seq<string>, n: nat, notes: seq<string>, s: string)
    requires n < |lines| && NotesAre(lines, n, notes, s) && !NoteOf(lines, n, s)
    ensures NotesAre(lines, n + 1, notes, s)
  {
    var at :| ListsNotes(lines, n, notes, at, s);
    assert ListsNotes(lines, n + 1, notes, at, s);
  }

  /** What parsing has made of the first `n` lines. */
  ghost predicate ReadSoFar(lines: seq<string>, n: nat, current: string, sections: Sections)
    requires n <= |lines|
  {
    current == HeadingOver(lines, n) && forall s :: NotesAre(lines, n, LinesIn(sections, s), s)
  }

  lemma AppendedLines(sections: Sections, current: string, line: string, s: string)
    ensures LinesIn(Append(sections, current, [line]), s)
         == if s == current then LinesIn(sections, s) + [line] else LinesIn(sections, s)
  {
  }

  lemma ReadNote(lines: seq<string>, n: nat, current: string, sections: Sections, more: Sections)
    requires n < |lines| && ReadSoFar(lines, n, current, sections) && IsNote(lines[n])
    requires more == Append(sections, current, [RStrip(lines[n])])
    ensures ReadSoFar(lines, n + 1, current, more)
  {
    forall s
      ensures NotesAre(lines, n + 1, LinesIn(more, s), s)
    {
      AppendedLines(sections, current, RStrip(lines[n]), s);
      if s == current {
        NoteAdded(lines, n, LinesIn(sections, s), s);
      } else {
        NothingAdded(lines, n, LinesIn(sections, s), s);
      }
    }
  }

  lemma ReadOther(lines: seq<string>, n: nat, current: string, sections: Sections)
    requires n < |lines| && ReadSoFar(lines, n, current, sections) && !IsNote(lines[n])
    ensures ReadSoFar(lines, n + 1, if HeadingLine(lines[n]) then RStrip(lines[n]) else current, sections)
  {
    forall s
      ensures NotesAre(lines, n + 1, LinesIn(sections, s), s)
    {
      NothingAdded(lines, n, LinesIn(sections, s), s);
    }
  }

  lemma ParseStep(all: seq<string>, raw: string, rest: seq<string>, current: string, sections: Sections)
    requires all != [] && all[0] == raw && all[1..] == rest
    ensures IsNote(raw) ==>
      ParseFrom(all, current, sections) == ParseFrom(rest, current, Append(sections, current, [RStrip(raw)]))
    ensures !IsNote(raw) ==>
      ParseFrom(all, current, sections) == ParseFrom(rest, if HeadingLine(raw) then RStrip(raw) else current, sections)
  {
    if HeadingLine(raw) {
      RStripTwice(raw);
      HeadingIsClean(RStrip(raw));
    }
  }

  lemma RestOfLines(lines: seq<string>, n: nat)
    requires n < |lines|
    ensures lines[n..] != [] && lines[n..][0] == lines[n] && lines[n..][1..] == lines[n + 1..]
  {
  }

  /** Each section holds exactly its notes, in order. */
  ghost predicate ReadAll(lines: seq<string>, sections: Sections) {
    forall s :: NotesAre(lines, |lines|, LinesIn(sections, s), s)
  }

  lemma ReadToTheEnd(lines: seq<string>, n: nat, current: string, sections: Sections)
    requires n == |lines| && ReadSoFar(lines, n, current, sections)
    ensures ReadAll(lines, sections)
  {
  }

  lemma {:induction false} ParseFromReads(lines: seq<string>, n: nat, tail: seq<string>, current: string,
                                          sections: Sections, result: Sections)
    requires n <= |lines| && tail == lines[n..] && result == ParseFrom(tail, current, sections)
    requires ReadSoFar(lines, n, current, sections)
    ensures ReadAll(lines, result)
    decreases |lines| - n
  {
    if n == |lines| {
      ReadToTheEnd(lines, n, current, sections);
    } else {
      RestOfLines(lines, n);
      ParseStep(tail, lines[n], lines[n + 1..], current, sections);
      if IsNote(lines[n]) {
        ReadNote(lines, n, current, sections, Append(sections, current, [RStrip(lines[n])]));
        ParseFromReads(lines, n + 1, lines[n + 1..], current, Append(sections, current, [RStrip(lines[n])]), result);
      } else {
        ReadOther(lines, n, current, sections);
        ParseFromReads(lines, n + 1, lines[n + 1..], if HeadingLine(lines[n]) then RStrip(lines[n]) else current,
                       sections, result);
      }
    }
  }

  lemma NothingRead(lines: seq<string>, s: string)
    ensures NotesAre(lines, 0, [], s)
  {
    assert ListsNotes(lines, 0, [], [], s);
  }

  /**
    Parsing, from the raw lines alone: each section holds exactly the notes that stand below its heading,
    each stripped at the end, once and in their order; and only sections with notes appear.
  */
  lemma ParseReadsLines(lines: seq<string>, s: string)
    ensures NotesAre(lines, |lines|, LinesIn(Parse(lines), s), s)
    ensures s in Parse(lines) <==> exists k :: 0 <= k < |lines| && NoteOf(lines, k, s)
  {
    forall t
      ensures NotesAre(lines, 0, LinesIn(map[], t), t)
    {
      NothingRead(lines, t);
    }
    assert lines[0..] == lines;
    ParseFromReads(lines, 0, lines, DEFAULT_SECTION, map[], Parse(lines));
    ParseWellFormed(lines);
    NotesOrNone(lines, LinesIn(Parse(lines), s), s);
  }

  lemma NotesOrNone(lines: seq<string>, notes: seq<string>, s: string)
    requires NotesAre(lines, |lines|, notes, s)
    ensures notes != [] <==> exists k :: 0 <= k < |lines| && NoteOf(lines, k, s)
  {
    var at :| ListsNotes(lines, |lines|, notes, at, s);
    if notes != [] {
      assert at[0] in at;
    }
    if k :| 0 <= k < |lines| && NoteOf(lines, k, s) {
      assert k in at;
    }
  }

  /** Some line of the fragment is the note `l`. */
  predicate HasBullet(lines: seq<string>, l: string) {
    exists k :: 0 <= k < |lines| && IsNote(lines[k]) && RStrip(lines[k]) == l
  }

  /** A fragment that `parse_fragment` refuses: it has no note. */
  predicate NoBullets(lines: seq<string>) {
    forall k :: 0 <= k < |lines| ==> !IsNote(lines[k])
  }

  lemma NoteIn(lines: seq<string>, notes: seq<string>, s: string, l: string)
    requires NotesAre(lines, |lines|, notes, s)
    ensures l in notes <==> exists k :: 0 <= k < |lines| && NoteOf(lines, k, s) && RStrip(lines[k]) == l
  {
    var at :| ListsNotes(lines, |lines|, notes, at, s);
    if l in notes {
      var i :| 0 <= i < |notes| && notes[i] == l;
      assert at[i] in at;
    }
    if k :| 0 <= k < |lines| && NoteOf(lines, k, s) && RStrip(lines[k]) == l {
      var i :| 0 <= i < |at| && at[i] == k;
      assert notes[i] == l;
    }
  }

  lemma BulletIsParsed(lines: seq<string>, k: nat) returns (s: string)
    requires k < |lines| && IsNote(lines[k])
    ensures s in Parse(lines) && RStrip(lines[k]) in Parse(lines)[s]
  {
    s := HeadingOver(lines, k);
    ParseReadsLines(lines, s);
    assert NoteOf(lines, k, s);
    NoteIn(lines, LinesIn(Parse(lines), s), s, RStrip(lines[k]));
  }

  lemma ParsedIsBullet(lines: seq<string>, s: string, l: string) returns (k: nat)
    requires s in Parse(lines) && l in Parse(lines)[s]
    ensures k < |lines| && IsNote(lines[k]) && RStrip(lines[k]) == l
  {
    ParseReadsLines(lines, s);
    NoteIn(lines, LinesIn(Parse(lines), s), s, l);
    k :| 0 <= k < |lines| && NoteOf(lines, k, s) && RStrip(lines[k]) == l;
  }

  lemma NoBulletsIff(lines: seq<string>)
    ensures NoBullets(lines) <==> |Parse(lines)| == 0
  {
    if !NoBullets(lines) {
      var k :| 0 <= k < |lines| && IsNote(lines[k]);
      var s := BulletIsParsed(lines, k);
    }
    if |Parse(lines)| != 0 {
      var s :| s in Parse(lines).Keys;
      ParseReadsLines(lines, s);
    }
  }

  method ParseFragment(lines: seq<string>) returns (r: Result<Sections, ()>)
    ensures r == if NoBullets(lines) then Failure(()) else Success(Parse(lines))
    ensures r.Success? ==> forall s :: NotesAre(lines, |lines|, LinesIn(r.value, s), s)
    ensures r.Success? ==> forall s :: s in r.value <==> exists k :: 0 <= k < |lines| && NoteOf(lines, k, s)
  {
    var sections: Sections := map[];
    var current := DEFAULT_SECTION;
    for i := 0 to |lines|
      invariant ParseFrom(lines[i..], current, sections) == Parse(lines)
    {
      var line := RStrip(lines[i]);
      assert lines[i..][1..] == lines[i + 1..];
      if line != "" {
        if IsHeading(line) {
          current := Strip(line);
        } else {
          sections := Append(sections, current, [line]);
        }
      }
    }
    NoBulletsIff(lines);
    forall s
      ensures NotesAre(lines, |lines|, LinesIn(Parse(lines), s), s)
      ensures s in Parse(lines) <==> exists k :: 0 <= k < |lines| && NoteOf(lines, k, s)
    {
      ParseReadsLines(lines, s);
    }
    return if |sections| == 0 then Failure(()) else Success(sections);
  }

  // ---- merging -----------------------------------------------------------------------------------------

  /** Fragment by fragment, each section's lines go to the end of the merged section. */
  function Merge(m: Sections, n: Sections): Sections {
    map s | s in m.Keys + n.Keys :: LinesIn(m, s) + LinesIn(n, s)
  }

  function Collect(fragments: seq<seq<string>>): Sections {
    if fragments == [] then map[] else
      Merge(Collect(fragments[..|fragments| - 1]), Parse(fragments[|fragments| - 1]))
  }

  /** The lines a section receives, fragment after fragment. */
  function Gathered(fragments: seq<seq<string>>, section: string): seq<string> {
    if fragments == [] then [] else
      Gathered(fragments[..|fragments| - 1], section) + LinesIn(Parse(fragments[|fragments| - 1]), section)
  }

  lemma {:induction false} CollectGathers(fragments: seq<seq<string>>, section: string)
    ensures LinesIn(Collect(fragments), section) == Gathered(fragments, section)
    ensures WellFormed(Collect(fragments))
  {
    if fragments != [] {
      CollectGathers(fragments[..|fragments| - 1], section);
      ParseWellFormed(fragments[|fragments| - 1]);
    }
  }

  // ---- rendering -----------------------------------------------------------------------------------------

  lemma {:induction false} TextBeforeTotal(a: string, b: string)
    ensures TextBefore(a, b) || TextBefore(b, a) || a == b
  {
    if a != "" && b != "" && a[0] == b[0] {
      TextBeforeTotal(a[1..], b[1..]);
      assert a == [a[0]] + a[1..] && b == [b[0]] + b[1..];
    }
  }

  lemma {:induction false} TextBeforeTransitive(a: string, b: string, c: string)
    requires TextBefore(a, b) && TextBefore(b, c)
    ensures TextBefore(a, c)
  {
    if a != "" && a[0] == b[0] == c[0] {
      TextBeforeTransitive(a[1..], b[1..], c[1..]);
    }
  }

  lemma {:induction false} HasLeast(keys: set<string>) returns (least: string)
    requires keys != {}
    ensures least in keys && forall k :: k in keys && k != least ==> TextBefore(least, k)
  {
    least :| least in keys;
    if keys != {least} {
      var rest := HasLeast(keys - {least});
      TextBeforeTotal(least, rest);
      if TextBefore(rest, least) {
        least := rest;
      } else {
        forall k | k in keys && k != least && k != rest
          ensures TextBefore(least, k)
        {
          TextBeforeTransitive(least, rest, k);
        }
      }
    }
  }

  predicate IsLeast(keys: set<string>, least: string) {
    least in keys && forall k :: k in keys && k != least ==> TextBefore(least, k)
  }

  lemma {:induction false} TextBeforeAsymmetric(a: string, b: string)
    requires TextBefore(a, b)
    ensures !TextBefore(b, a)
  {
    if a != "" && a[0] == b[0] {
      TextBeforeAsymmetric(a[1..], b[1..]);
    }
  }

  lemma LeastIsUnique(keys: set<string>)
    requires keys != {}
    ensures exists k :: k in keys && IsLeast(keys, k)
    ensures forall a, b :: a in keys && b in keys && IsLeast(keys, a) && IsLeast(keys, b) ==> a == b
  {
    var least := HasLeast(keys);
    assert IsLeast(keys, least);
    forall a, b | a in keys && b in keys && IsLeast(keys, a) && IsLeast(keys, b)
      ensures a == b
    {
      if a != b {
        TextBeforeAsymmetric(a, b);
      }
    }
  }

  /** `sorted`: the least key, then the others. */
  function Sorted(keys: set<string>): (r: seq<string>)
    ensures forall k :: k in r <==> k in keys
    ensures Distinct(r)
    ensures forall i, j :: 0 <= i < j < |r| ==> TextBefore(r[i], r[j])
    decreases |keys|
  {
    if keys == {} then [] else
      LeastIsUnique(keys);
      var k :| k in keys && IsLeast(keys, k);
      [k] + Sorted(keys - {k})
  }

  predicate Distinct(s: seq<string>) {
    forall i, j :: 0 <= i < j < |s| ==> s[i] != s[j]
  }

  function KnownSections(order: seq<string>, m: Sections): (r: seq<string>)
    ensures forall s :: s in r <==> s in order && s in m
  {
    if order == [] then []
    else if order[0] in m then [order[0]] + KnownSections(order[1..], m)
    else KnownSections(order[1..], m)
  }

  /** Keep-a-changelog sections first, the others in text order. */
  function Ordered(m: Sections): seq<string> {
    KnownSections(SECTION_ORDER, m) + Sorted(m.Keys - (set s | s in SECTION_ORDER))
  }

  lemma {:induction false} KnownDistinct(order: seq<string>, m: Sections)
    requires Distinct(order)
    ensures Distinct(KnownSections(order, m))
  {
    if order != [] {
      KnownDistinct(order[1..], m);
    }
  }

  /** Every section is listed exactly once. */
  lemma OrderedListsEachOnce(m: Sections)
    ensures Distinct(Ordered(m)) && forall s :: s in Ordered(m) <==> s in m
  {
    assert Distinct(SECTION_ORDER);
    KnownDistinct(SECTION_ORDER, m);
    var known := KnownSections(SECTION_ORDER, m);
    var others := Sorted(m.Keys - (set s | s in SECTION_ORDER));
    forall i, j | 0 <= i < j < |known + others|
      ensures (known + others)[i] != (known + others)[j]
    {
      if i < |known| <= j {
        assert known[i] in SECTION_ORDER && others[j - |known|] in others;
      }
    }
  }

  /** The place of a section in `order`, or the length of `order`. */
  function Rank(order: seq<string>, section: string): nat {
    if order == [] || order[0] == section then 0 else 1 + Rank(order[1..], section)
  }

  lemma {:induction false} RankIsPlace(order: seq<string>, section: string)
    ensures Rank(order, section) <= |order|
    ensures section in order <==> Rank(order, section) < |order|
  {
    if order != [] && order[0] != section {
      RankIsPlace(order[1..], section);
      assert order == [order[0]] + order[1..];
    }
  }

  predicate RanksIncrease(order: seq<string>, r: seq<string>) {
    forall i, j :: 0 <= i < j < |r| ==> Rank(order, r[i]) < Rank(order, r[j])
  }

  lemma {:induction false} KnownInOrder(order: seq<string>, m: Sections)
    requires Distinct(order)
    ensures RanksIncrease(order, KnownSections(order, m))
  {
    if order != [] {
      KnownInOrder(order[1..], m);
      var tail := KnownSections(order[1..], m);
      forall t | t in tail
        ensures t != order[0]
      {
        var k :| 0 <= k < |order[1..]| && order[1..][k] == t;
        assert order[k + 1] == t;
      }
      forall i, j | 0 <= i < j < |tail|
        ensures Rank(order, tail[i]) < Rank(order, tail[j])
      {
        assert tail[i] in tail && tail[j] in tail;
        assert Rank(order, tail[i]) == 1 + Rank(order[1..], tail[i]);
        assert Rank(order, tail[j]) == 1 + Rank(order[1..], tail[j]);
      }
    }
  }

  /** A release section always reads the same way: by the conventional order, then by text. */
  lemma SectionsReadTheSameWay(m: Sections, i: nat, j: nat)
    requires i < j < |Ordered(m)|
    ensures var (a, b) := (Ordered(m)[i], Ordered(m)[j]);
      Rank(SECTION_ORDER, a) < Rank(SECTION_ORDER, b)
      || (a !in SECTION_ORDER && b !in SECTION_ORDER && TextBefore(a, b))
  {
    assert Distinct(SECTION_ORDER);
    KnownInOrder(SECTION_ORDER, m);
    ByRankThenText(SECTION_ORDER, KnownSections(SECTION_ORDER, m),
                   Sorted(m.Keys - (set s | s in SECTION_ORDER)), i, j);
  }

  lemma ByRankThenText(order: seq<string>, known: seq<string>, others: seq<string>, i: nat, j: nat)
    requires i < j < |known + others|
    requires forall s :: s in known ==> s in order
    requires forall s :: s in others ==> s !in order
    requires RanksIncrease(order, known)
    requires forall a, b :: 0 <= a < b < |others| ==> TextBefore(others[a], others[b])
    ensures var (a, b) := ((known + others)[i], (known + others)[j]);
      Rank(order, a) < Rank(order, b) || (a !in order && b !in order && TextBefore(a, b))
  {
    RankIsPlace(order, (known + others)[i]);
    RankIsPlace(order, (known + others)[j]);
  }

  function Body(order: seq<string>, m: Sections): seq<string> {
    if order == [] then [] else [order[0], ""] + LinesIn(m, order[0]) + [""] + Body(order[1..], m)
  }

  function VersionHeader(version: string): string {
    "## [" + version + "]"
  }

  function RenderLines(version: string, m: Sections, today: string): seq<string> {
    [VersionHeader(version) + " - " + today, ""] + Body(Ordered(m), m)
  }

  // ---- where everything is rendered -------------------------------------------------------------------------

  /** The number of lines in front of block `i`: each section takes three more lines than it has notes. */
  function BlockStart(order: seq<string>, m: Sections, i: nat): nat
    requires i <= |order|
  {
    if i == 0 then 0 else |LinesIn(m, order[0])| + 3 + BlockStart(order[1..], m, i - 1)
  }

  /** From line `p` on: the heading, a blank line, the notes, a blank line. */
  predicate BlockAt(lines: seq<string>, p: nat, heading: string, notes: seq<string>) {
    && p + |notes| + 3 <= |lines|
    && lines[p] == heading && lines[p + 1] == "" && lines[p + |notes| + 2] == ""
    && forall k :: 0 <= k < |notes| ==> lines[p + 2 + k] == notes[k]
  }

  lemma BlockShifts(a: seq<string>, b: seq<string>, p: nat, heading: string, notes: seq<string>)
    requires BlockAt(b, p, heading, notes)
    ensures BlockAt(a + b, |a| + p, heading, notes)
  {
    assert forall k :: 0 <= k < |b| ==> (a + b)[|a| + k] == b[k];
  }

  function BlockOf(heading: string, notes: seq<string>): (b: seq<string>)
    ensures |b| == |notes| + 3
  {
    [heading, ""] + notes + [""]
  }

  lemma BlockFirst(heading: string, notes: seq<string>, b: seq<string>)
    ensures BlockAt(BlockOf(heading, notes) + b, 0, heading, notes)
  {
  }

  lemma BodyFirst(order: seq<string>, m: Sections)
    requires order != []
    ensures Body(order, m) == BlockOf(order[0], LinesIn(m, order[0])) + Body(order[1..], m)
  {
  }

  lemma {:induction false} BodyLength(order: seq<string>, m: Sections)
    ensures |Body(order, m)| == BlockStart(order, m, |order|)
  {
    if order != [] {
      BodyFirst(order, m);
      BodyLength(order[1..], m);
    }
  }

  lemma LaterBlockStart(order: seq<string>, m: Sections, i: nat, first: seq<string>)
    requires 0 < i < |order| && first == BlockOf(order[0], LinesIn(m, order[0]))
    ensures BlockStart(order, m, i) == |first| + BlockStart(order[1..], m, i - 1) && order[1..][i - 1] == order[i]
  {
  }

  lemma LaterBlock(order: seq<string>, m: Sections, i: nat, first: seq<string>, rest: seq<string>, body: seq<string>)
    requires 0 < i < |order| && first == BlockOf(order[0], LinesIn(m, order[0])) && body == first + rest
    requires BlockAt(rest, BlockStart(order[1..], m, i - 1), order[1..][i - 1], LinesIn(m, order[1..][i - 1]))
    ensures BlockAt(body, BlockStart(order, m, i), order[i], LinesIn(m, order[i]))
  {
    LaterBlockStart(order, m, i, first);
    BlockShifts(first, rest, BlockStart(order[1..], m, i - 1), order[i], LinesIn(m, order[i]));
  }

  lemma FirstBlock(order: seq<string>, m: Sections, first: seq<string>, rest: seq<string>, body: seq<string>)
    requires order != [] && first == BlockOf(order[0], LinesIn(m, order[0])) && body == first + rest
    ensures BlockAt(body, BlockStart(order, m, 0), order[0], LinesIn(m, order[0]))
  {
    BlockFirst(order[0], LinesIn(m, order[0]), rest);
  }

  lemma {:induction false} BodyBlocks(order: seq<string>, m: Sections, i: nat, body: seq<string>)
    requires i < |order| && body == Body(order, m)
    ensures BlockAt(body, BlockStart(order, m, i), order[i], LinesIn(m, order[i]))
    decreases |order|
  {
    var first, rest := BlockOf(order[0], LinesIn(m, order[0])), Body(order[1..], m);
    BodyFirst(order, m);
    if i == 0 {
      FirstBlock(order, m, first, rest, body);
    } else {
      BodyBlocks(order[1..], m, i - 1, rest);
      LaterBlock(order, m, i, first, rest, body);
    }
  }

  /** The place of a section by convention; 5 for any other. */
  function Conventional(section: string): nat {
    if section == "### Added" then 0
    else if section == "### Changed" then 1
    else if section == "### Fixed" then 2
    else if section == "### Removed" then 3
    else if section == "### Security" then 4
    else 5
  }

  lemma RankIsConventional(section: string)
    ensures Rank(SECTION_ORDER, section) == Conventional(section)
    ensures section in SECTION_ORDER <==> Conventional(section) < 5
  {
    var order := SECTION_ORDER;
    assert Rank(order[5..], section) == 0;
    assert order[4..][1..] == order[5..] && order[3..][1..] == order[4..] && order[2..][1..] == order[3..];
    assert order[1..][1..] == order[2..];
    RankIsPlace(order, section);
  }

  /** Sections are rendered in the conventional order, and others after them by text. */
  lemma RenderedOrder(m: Sections, i: nat, j: nat)
    requires i < j < |Ordered(m)|
    ensures var (s, t) := (Ordered(m)[i], Ordered(m)[j]);
      Conventional(s) < Conventional(t) || (Conventional(s) == Conventional(t) == 5 && TextBefore(s, t))
  {
    SectionsReadTheSameWay(m, i, j);
    RankIsConventional(Ordered(m)[i]);
    RankIsConventional(Ordered(m)[j]);
  }

  /** The body: one block for each listed section, in that order and with nothing between the blocks. */
  lemma BodyLayout(order: seq<string>, m: Sections, body: seq<string>, i: nat)
    requires i < |order| && body == Body(order, m)
    ensures |body| == BlockStart(order, m, |order|)
    ensures BlockAt(body, BlockStart(order, m, i), order[i], LinesIn(m, order[i]))
  {
    BodyLength(order, m);
    BodyBlocks(order, m, i, body);
  }

  /** What is rendered: the version's header with the date, a blank line, and the body. */
  lemma RenderedFirstLine(version: string, m: Sections, today: string) returns (first: string, body: seq<string>)
    ensures first == "## [" + version + "]" + " - " + today && body == Body(Ordered(m), m)
    ensures RenderLines(version, m, today) == [first, ""] + body
  {
    first, body := VersionHeader(version) + " - " + today, Body(Ordered(m), m);
  }

  // ---- parsing undoes rendering ---------------------------------------------------------------------------

  lemma ParseBullet(bullet: string, rest: seq<string>, current: string, sections: Sections)
    requires CleanBullet(bullet)
    ensures ParseFrom([bullet] + rest, current, sections) == ParseFrom(rest, current, Append(sections, current, [bullet]))
  {
    assert ([bullet] + rest)[1..] == rest;
  }

  lemma AppendTwice(m: Sections, section: string, a: seq<string>, b: seq<string>)
    ensures Append(Append(m, section, a), section, b) == Append(m, section, a + b)
  {
    assert LinesIn(m, section) + a + b == LinesIn(m, section) + (a + b);
  }

  lemma FirstBullet(lines: seq<string>, rest: seq<string>)
    requires lines != []
    ensures lines == [lines[0]] + lines[1..] && lines + rest == [lines[0]] + (lines[1..] + rest)
  {
  }

  lemma {:induction false} ParseBullets(lines: seq<string>, rest: seq<string>, current: string, sections: Sections)
    requires forall l :: l in lines ==> CleanBullet(l)
    requires lines != []
    ensures ParseFrom(lines + rest, current, sections) == ParseFrom(rest, current, Append(sections, current, lines))
    decreases |lines|
  {
    var first, more := lines[0], lines[1..];
    FirstBullet(lines, rest);
    ParseBullet(first, more + rest, current, sections);
    if more == [] {
      assert more + rest == rest;
    } else {
      ParseBullets(more, rest, current, Append(sections, current, [first]));
      AppendTwice(sections, current, [first], more);
    }
  }

  lemma ParseBlank(rest: seq<string>, current: string, sections: Sections)
    ensures ParseFrom([""] + rest, current, sections) == ParseFrom(rest, current, sections)
  {
    assert ([""] + rest)[1..] == rest;
  }

  lemma ParseHeading(heading: string, rest: seq<string>, current: string, sections: Sections)
    requires CleanHeading(heading)
    ensures ParseFrom([heading] + rest, current, sections) == ParseFrom(rest, heading, sections)
  {
    assert ([heading] + rest)[1..] == rest;
  }

  lemma ParseBlock(heading: string, lines: seq<string>, rest: seq<string>, current: string, sections: Sections)
    requires CleanHeading(heading) && lines != [] && forall l :: l in lines ==> CleanBullet(l)
    ensures ParseFrom([heading, ""] + lines + [""] + rest, current, sections)
         == ParseFrom(rest, heading, Append(sections, heading, lines))
  {
    var tail := [""] + rest;
    assert [heading, ""] + lines + [""] + rest == [heading] + ([""] + (lines + tail));
    ParseHeading(heading, [""] + (lines + tail), current, sections);
    ParseBlank(lines + tail, heading, sections);
    ParseBullets(lines, tail, heading, sections);
    ParseBlank(rest, heading, Append(sections, heading, lines));
  }

  /** The sections of `m` that `order` names. */
  function Chosen(order: seq<string>, m: Sections): (r: Sections)
    requires forall s :: s in order ==> s in m
    ensures r == map s | s in order :: m[s]
  {
    map s | s in order :: m[s]
  }

  lemma TailOfDistinct(order: seq<string>, t: string)
    requires order != [] && Distinct(order) && t in order[1..]
    ensures t in order && t != order[0]
  {
    var k :| 0 <= k < |order[1..]| && order[1..][k] == t;
    assert order[k + 1] == t;
  }

  lemma AppendToNew(m: Sections, section: string, lines: seq<string>)
    requires section !in m
    ensures Append(m, section, lines) == m[section := lines]
  {
    assert [] + lines == lines;
  }

  lemma ChosenFirst(order: seq<string>, m: Sections, sections: Sections)
    requires order != [] && Distinct(order)
    requires forall s :: s in order ==> s in m && s !in sections
    ensures forall s :: s in order[1..] ==> s in order && s != order[0]
    ensures sections[order[0] := m[order[0]]] + Chosen(order[1..], m) == sections + Chosen(order, m)
  {
    assert order == [order[0]] + order[1..];
    forall s | s in order[1..]
      ensures s in order && s != order[0]
    {
      TailOfDistinct(order, s);
    }
  }

  lemma ParseFirstBlock(order: seq<string>, m: Sections, current: string, sections: Sections)
    requires WellFormed(m) && order != [] && order[0] in m && order[0] !in sections
    ensures ParseFrom(Body(order, m), current, sections)
         == ParseFrom(Body(order[1..], m), order[0], sections[order[0] := m[order[0]]])
  {
    var s := order[0];
    assert CleanHeading(s);
    AppendToNew(sections, s, m[s]);
    ParseBlock(s, m[s], Body(order[1..], m), current, sections);
  }

  lemma RestIsUnlisted(order: seq<string>, m: Sections, sections: Sections, more: Sections)
    requires order != [] && Distinct(order) && order[0] in m && more == sections[order[0] := m[order[0]]]
    requires forall s :: s in order ==> s in m && s !in sections
    ensures Distinct(order[1..]) && forall s :: s in order[1..] ==> s in m && s !in more
  {
    forall s | s in order[1..]
      ensures s in m && s !in more
    {
      TailOfDistinct(order, s);
    }
  }

  lemma {:induction false} ParseBody(order: seq<string>, m: Sections, current: string, sections: Sections)
    requires WellFormed(m) && Distinct(order)
    requires forall s :: s in order ==> s in m && s !in sections
    ensures ParseFrom(Body(order, m), current, sections) == sections + Chosen(order, m)
    decreases |order|
  {
    if order == [] {
      assert sections + Chosen(order, m) == sections;
    } else {
      assert order[0] in order;
      var more := sections[order[0] := m[order[0]]];
      ChosenFirst(order, m, sections);
      RestIsUnlisted(order, m, sections, more);
      ParseFirstBlock(order, m, current, sections);
      ParseBody(order[1..], m, order[0], more);
    }
  }

  lemma ChosenAll(order: seq<string>, m: Sections, none: Sections)
    requires none == map[] && forall s :: s in order <==> s in m
    ensures none + Chosen(order, m) == m
  {
  }

  lemma ParseWholeBody(order: seq<string>, m: Sections)
    requires WellFormed(m) && Distinct(order) && forall s :: s in order <==> s in m
    ensures Parse(Body(order, m)) == m
  {
    var none: Sections := map[];
    ParseBody(order, m, DEFAULT_SECTION, none);
    ChosenAll(order, m, none);
  }

  /** Re-parsing the body of a rendered section gives the merged map back, line for line. */
  lemma ParseInvertsRender(version: string, m: Sections, today: string)
    requires WellFormed(m)
    ensures Parse(RenderLines(version, m, today)[2..]) == m
  {
    OrderedListsEachOnce(m);
    var order := Ordered(m);
    assert RenderLines(version, m, today)[2..] == Body(order, m);
    ParseWholeBody(order, m);
  }

  /** So rendering what was collected emits, section by section, exactly the lines of the fragments. */
  lemma RenderEmitsEveryLineOnce(version: string, fragments: seq<seq<string>>, today: string, section: string)
    ensures LinesIn(Parse(RenderLines(version, Collect(fragments), today)[2..]), section) == Gathered(fragments, section)
  {
    CollectGathers(fragments, section);
    ParseInvertsRender(version, Collect(fragments), today);
  }
}
