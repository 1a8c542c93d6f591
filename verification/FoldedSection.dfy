/**
  Where a fold of scripts/collate_changelog.py puts its lines: each bullet of the fragments
  becomes a whole line of the changelog and of the section that a later run looks into.
*/
module FoldedSections {
  import opened Wrappers
  import opened TextSearch
  import opened Text
  import opened Changelog
  import opened CollateRuns

  // ---- legal lines -----------------------------------------------------------------------------------

  /** A line of text; when `strict`, one that is not taken for a version header. */
  predicate Legal(strict: bool, l: string) {
    OneLine(l) && (strict ==> !At(l, MARK, 0))
  }

  predicate AllLegal(strict: bool, lines: seq<string>) {
    forall l :: l in lines ==> Legal(strict, l)
  }

  predicate SectionsLegal(strict: bool, m: Sections) {
    forall s :: s in m ==> Legal(strict, s) && AllLegal(strict, m[s])
  }

  lemma StrippedIsLegal(strict: bool, raw: string)
    requires Legal(strict, raw)
    ensures Legal(strict, RStrip(raw))
  {
    var r := RStrip(raw);
    assert forall k :: 0 <= k < |r| ==> r[k] == raw[k];
    assert At(r, MARK, 0) ==> At(raw, MARK, 0);
  }

  lemma DefaultIsLegal(strict: bool)
    ensures Legal(strict, DEFAULT_SECTION)
  {
    assert MARK[2] != DEFAULT_SECTION[0 + 2];
  }

  lemma {:induction false} ParseFromLegal(strict: bool, lines: seq<string>, current: string, sections: Sections)
    requires AllLegal(strict, lines) && Legal(strict, current) && SectionsLegal(strict, sections)
    ensures SectionsLegal(strict, ParseFrom(lines, current, sections))
    decreases |lines|
  {
    if lines != [] {
      var line := RStrip(lines[0]);
      StrippedIsLegal(strict, lines[0]);
      if line == "" {
        ParseFromLegal(strict, lines[1..], current, sections);
      } else if IsHeading(line) {
        RStripTwice(lines[0]);
        HeadingIsClean(line);
        ParseFromLegal(strict, lines[1..], line, sections);
      } else {
        ParseFromLegal(strict, lines[1..], current, Append(sections, current, [line]));
      }
    }
  }

  predicate FilesLegal(strict: bool, files: seq<seq<string>>) {
    forall f :: f in files ==> AllLegal(strict, f)
  }

  lemma {:induction false} CollectLegal(strict: bool, files: seq<seq<string>>)
    requires FilesLegal(strict, files)
    ensures SectionsLegal(strict, Collect(files))
  {
    if files != [] {
      CollectLegal(strict, files[..|files| - 1]);
      DefaultIsLegal(strict);
      ParseFromLegal(strict, files[|files| - 1], DEFAULT_SECTION, map[]);
    }
  }

  // ---- every bullet reaches the section --------------------------------------------------------------

  lemma {:induction false} CollectHas(files: seq<seq<string>>, i: nat, s: string, l: string)
    requires i < |files| && s in Parse(files[i]) && l in Parse(files[i])[s]
    ensures s in Collect(files) && l in Collect(files)[s]
  {
    if i < |files| - 1 {
      CollectHas(files[..|files| - 1], i, s, l);
    }
  }

  lemma {:induction false} BodyHas(order: seq<string>, m: Sections, s: string, l: string) returns (k: nat)
    requires s in order && s in m && l in m[s]
    ensures k + 1 < |Body(order, m)| && Body(order, m)[k] == l
  {
    var head := [order[0], ""] + LinesIn(m, order[0]) + [""];
    assert Body(order, m) == head + Body(order[1..], m);
    if order[0] == s {
      var j :| 0 <= j < |m[s]| && m[s][j] == l;
      k := j + 2;
    } else {
      assert order == [order[0]] + order[1..];
      k := BodyHas(order[1..], m, s, l);
      k := |head| + k;
    }
  }

  lemma BehindHeader(header: string, body: seq<string>, k: nat)
    requires k < |body|
    ensures |[header, ""] + body| == |body| + 2 && ([header, ""] + body)[k + 2] == body[k]
  {
  }

  lemma SectionHas(version: string, m: Sections, today: string, s: string, l: string) returns (k: nat)
    requires s in m && l in m[s]
    ensures k + 1 < |RenderLines(version, m, today)| && RenderLines(version, m, today)[k] == l
  {
    OrderedListsEachOnce(m);
    var order := Ordered(m);
    k := BodyHas(order, m, s, l);
    BehindHeader(VersionHeader(version) + " - " + today, Body(order, m), k);
    k := k + 2;
  }

  lemma {:induction false} BodyLegal(strict: bool, order: seq<string>, m: Sections)
    requires SectionsLegal(strict, m) && forall s :: s in order ==> s in m
    ensures AllLegal(strict, Body(order, m))
    ensures order != [] ==> Body(order, m)[|Body(order, m)| - 1] == ""
  {
    if order != [] {
      BodyLegal(strict, order[1..], m);
      assert order[0] in order && LinesIn(m, order[0]) == m[order[0]];
      forall s | s in order[1..]
        ensures s in m
      {
        assert s in order;
      }
    }
  }

  /** The lines of a section: the header first, the others legal, the last one empty. */
  predicate SectionShape(header: string, lines: seq<string>) {
    && |lines| >= 2 && lines[|lines| - 1] == "" && OneLine(lines[0])
    && header != "" && OneLine(header) && At(lines[0], header, 0)
    && forall k :: 1 <= k < |lines| ==> Legal(true, lines[k])
  }

  lemma {:induction false} BodyEnds(order: seq<string>, m: Sections)
    ensures order != [] ==> Body(order, m) != [] && Body(order, m)[|Body(order, m)| - 1] == ""
  {
    if order != [] {
      BodyEnds(order[1..], m);
    }
  }

  lemma RenderedEnds(version: string, m: Sections, today: string)
    ensures var lines := RenderLines(version, m, today); |lines| >= 2 && lines[|lines| - 1] == ""
  {
    BodyEnds(Ordered(m), m);
  }

  lemma SectionEndsLine(version: string, m: Sections, today: string)
    ensures var section := Section(version, m, today); section != "" && section[|section| - 1] == '\n'
  {
    RenderedEnds(version, m, today);
    JoinEndsLine(RenderLines(version, m, today));
  }

  // ---- where the section lands -------------------------------------------------------------------------

  lemma UpToEnd(s: string, p: string, i: nat)
    requires At(s, p, i)
    ensures s[..i + |p|] == s[..i] + p
  {
    var left, right := s[..i + |p|], s[..i] + p;
    forall k | 0 <= k < |left|
      ensures left[k] == right[k]
    {
      CharAt(s, p, i, k);
    }
  }

  lemma ReplaceSplits(text: string, p: string, inserted: string) returns (a: string, b: string)
    requires Contains(text, p)
    ensures text == a + b && ReplaceFirst(text, p, p + inserted) == a + inserted + b
    ensures exists front :: a == front + p
  {
    var i := Find(text, p, 0).value;
    a, b := text[..i + |p|], text[i + |p|..];
    UpToEnd(text, p, i);
    assert text[..i] + (p + inserted) + b == text[..i] + p + inserted + b;
  }

  /** A fold puts a blank line and the section right behind the first anchor line, if there is one, and changes nothing else. */
  lemma FoldsBelowFirstAnchor(text: string, section: string)
    ensures (forall i: nat :: !At(text, ANCHOR, i)) ==> Folded(text, section) == text
    ensures forall i: nat :: At(text, ANCHOR, i) && (forall j: nat :: j < i ==> !At(text, ANCHOR, j)) ==>
      i + 16 <= |text| && Folded(text, section) == text[..i + 16] + "\n" + section + text[i + 16..]
  {
    forall i: nat | At(text, ANCHOR, i) && forall j: nat :: j < i ==> !At(text, ANCHOR, j)
      ensures i + 16 <= |text| && Folded(text, section) == text[..i + 16] + "\n" + section + text[i + 16..]
    {
      assert |ANCHOR| == 16 && Find(text, ANCHOR, 0) == Some(i);
      FoldAt(text, section, i);
    }
  }

  lemma FoldAt(text: string, section: string, i: nat)
    requires At(text, ANCHOR, i) && Find(text, ANCHOR, 0) == Some(i) && |ANCHOR| == 16
    ensures Folded(text, section) == text[..i + 16] + "\n" + section + text[i + 16..]
  {
    UpToEnd(text, ANCHOR, i);
    assert text[..i] + (ANCHOR + "\n" + section) + text[i + 16..] == text[..i] + ANCHOR + "\n" + section + text[i + 16..];
  }

  /** The section a rerun reads: from the first header of the version to the next line that begins like one. */
  lemma SectionTextIs(text: string, version: string, start: nat, end: nat)
    requires At(text, "## [" + version + "]", start) && forall j: nat :: j < start ==> !At(text, "## [" + version + "]", j)
    requires start + |version| + 5 <= end <= |text|
    requires end == |text| || At(text, "\n## [", end)
    requires forall j: nat :: start + |version| + 5 <= j < end ==> !At(text, "\n## [", j)
    ensures Contains(text, VersionHeader(version)) && SectionText(text, version) == text[start..end]
  {
    var header, mark := VersionHeader(version), "\n" + MARK;
    assert header == "## [" + version + "]" && mark == "\n## [";
    assert Find(text, header, 0) == Some(start);
    var found := Find(text, mark, start + |header|);
    assert end < |text| ==> found == Some(end);
    assert end == |text| ==> forall j: nat :: j >= |text| ==> !At(text, mark, j);
  }

  /** Folding puts the section in right below the anchor line. */
  lemma FoldSplits(text: string, section: string) returns (a: string, b: string)
    requires Contains(text, ANCHOR)
    ensures text == a + b && Folded(text, section) == a + ("\n" + section) + b
    ensures a != "" && a[|a| - 1] == '\n' && Contains(a, ANCHOR)
  {
    a, b := ReplaceSplits(text, ANCHOR, "\n" + section);
    assert ANCHOR + "\n" + section == ANCHOR + ("\n" + section);
    var front :| a == front + ANCHOR;
    assert At(a, ANCHOR, |front|);
    assert ANCHOR[15] == '\n';
  }

  lemma FoldKeepsAnchor(text: string, section: string)
    requires Contains(text, ANCHOR)
    ensures Contains(Folded(text, section), ANCHOR)
  {
    var a, b := FoldSplits(text, section);
    var i: nat :| At(a, ANCHOR, i);
    assert At(Folded(text, section), ANCHOR, i);
  }

  /** A fold leaves every line of the changelog whole. */
  lemma FoldKeeps(text: string, section: string, l: string)
    requires Contains(text, ANCHOR) && OneLine(l) && HasLine(text, l)
    requires section != "" && section[|section| - 1] == '\n'
    ensures HasLine(Folded(text, section), l)
  {
    var a, b := FoldSplits(text, section);
    InsertionKeepsLines(a, "\n" + section, b, l);
  }

  /** The lines of a section stand as a block right below the anchor line. */
  lemma FoldShowsBlock(a: string, section: string, b: string)
    requires section != "" && section[|section| - 1] == '\n'
    ensures LineAt(a + ("\n" + section) + b, section[..|section| - 1], |a| + 1)
  {
  }

  lemma FoldShowsIn(a: string, section: string, b: string, l: string)
    requires section != "" && section[|section| - 1] == '\n' && HasLine(section[..|section| - 1], l)
    ensures HasLine(a + ("\n" + section) + b, l)
  {
    FoldShowsBlock(a, section, b);
    LineOfBlock(a + ("\n" + section) + b, section[..|section| - 1], |a| + 1, l);
  }

  lemma FoldShows(text: string, lines: seq<string>, k: nat)
    requires Contains(text, ANCHOR) && k + 1 < |lines| && lines[|lines| - 1] == ""
    ensures HasLine(Folded(text, Join(lines)), lines[k])
  {
    var a, b := FoldSplits(text, Join(lines));
    JoinEndsLine(lines);
    JoinHolds(lines, k);
    FoldShowsIn(a, Join(lines), b, lines[k]);
  }

  lemma AtInFront(a: string, rest: string, p: string, j: nat)
    requires j + |p| <= |a|
    ensures At(a + rest, p, j) <==> At(a, p, j)
  {
    assert forall k :: 0 <= k < |a| ==> (a + rest)[k] == a[k];
  }

  lemma FrontLacks(a: string, b: string, p: string)
    requires !Contains(a + b, p)
    ensures !Contains(a, p)
  {
    forall j: nat
      ensures !At(a, p, j)
    {
      if j + |p| <= |a| {
        AtInFront(a, b, p, j);
      }
    }
  }

  /** The header of the new section is the first one in the text. */
  lemma HeaderIsFirst(a: string, section: string, b: string, header: string)
    requires a != "" && a[|a| - 1] == '\n' && header != "" && OneLine(header)
    requires At(section, header, 0) && !Contains(a, header)
    ensures Find(a + ("\n" + section) + b, header, 0) == Some(|a| + 1)
  {
    var t := a + ("\n" + section) + b;
    assert At(t, header, |a| + 1);
    forall j: nat | j < |a| + 1
      ensures !At(t, header, j)
    {
      if At(t, header, j) {
        OccurrenceStaysOnLine(t, header, j, |a|);
        assert t == a + (("\n" + section) + b);
        AtInFront(a, ("\n" + section) + b, header, j);
      }
    }
  }

  lemma SectionEnd(before: string, lines: seq<string>, after: string, p: nat)
    requires |lines| >= 2 && lines[|lines| - 1] == "" && OneLine(lines[0])
    requires forall j :: 1 <= j < |lines| ==> Legal(true, lines[j])
    requires p + 1 < |Join(lines)|
    ensures !At(before + (Join(lines) + after), "\n" + MARK, |before| + p)
  {
    NoMarkInside(lines, MARK, after, p);
    AtBehind(before, Join(lines) + after, "\n" + MARK, p);
  }

  lemma AtBehind(before: string, s: string, p: string, i: nat)
    ensures At(before + s, p, |before| + i) <==> At(s, p, i)
  {
    assert forall k :: 0 <= k < |s| ==> (before + s)[|before| + k] == s[k];
  }

  lemma SectionFrom(t: string, version: string, start: nat) returns (end: nat)
    requires Find(t, VersionHeader(version), 0) == Some(start)
    ensures Contains(t, VersionHeader(version)) && start + |VersionHeader(version)| <= |t|
    ensures var next := Find(t, "\n" + MARK, start + |VersionHeader(version)|);
      end == if next.Some? then next.value else |t|
    ensures start <= end <= |t| && SectionText(t, version) == t[start..end]
  {
    var next := Find(t, "\n" + MARK, start + |VersionHeader(version)|);
    end := if next.Some? then next.value else |t|;
  }

  /** Cut at the next header, the section's text still has all but its last character. */
  lemma SectionReaches(a: string, lines: seq<string>, b: string, version: string) returns (end: nat)
    requires a != "" && a[|a| - 1] == '\n' && SectionShape(VersionHeader(version), lines)
    requires At(Join(lines), VersionHeader(version), 0) && !Contains(a, VersionHeader(version))
    ensures var t := a + ("\n" + Join(lines)) + b;
      && Contains(t, VersionHeader(version))
      && |a| + |Join(lines)| <= end <= |t| && SectionText(t, version) == t[|a| + 1..end]
  {
    var header, section := VersionHeader(version), Join(lines);
    var t := a + ("\n" + section) + b;
    HeaderIsFirst(a, section, b, header);
    end := SectionFrom(t, version, |a| + 1);
    NextHeaderIsBehind(a, lines, b, |a| + 1 + |header|);
  }

  lemma NextHeaderIsBehind(a: string, lines: seq<string>, b: string, from: nat)
    requires |lines| >= 2 && lines[|lines| - 1] == "" && OneLine(lines[0])
    requires forall j :: 1 <= j < |lines| ==> Legal(true, lines[j])
    requires |a| + 1 <= from <= |a + ("\n" + Join(lines)) + b|
    ensures var next := Find(a + ("\n" + Join(lines)) + b, "\n" + MARK, from);
      next.Some? ==> next.value >= |a| + |Join(lines)|
  {
    var t := a + ("\n" + Join(lines)) + b;
    assert t == a + "\n" + (Join(lines) + b);
    var next := Find(t, "\n" + MARK, from);
    if next.Some? && next.value < |a| + |Join(lines)| {
      SectionEnd(a + "\n", lines, b, next.value - |a| - 1);
    }
  }

  lemma JoinStarts(lines: seq<string>, header: string)
    requires |lines| >= 2 && At(lines[0], header, 0)
    ensures At(Join(lines), header, 0)
  {
    assert forall k :: 0 <= k < |lines[0]| ==> Join(lines)[k] == lines[0][k];
  }

  lemma BlockInSlice(a: string, section: string, b: string, end: nat)
    requires section != "" && section[|section| - 1] == '\n'
    requires |a| + |section| <= end <= |a + ("\n" + section) + b|
    ensures LineAt((a + ("\n" + section) + b)[|a| + 1..end], section[..|section| - 1], 0)
  {
    var slice := (a + ("\n" + section) + b)[|a| + 1..end];
    assert forall k :: 0 <= k < |slice| && k < |section| ==> slice[k] == section[k];
  }

  lemma LineInSlice(a: string, lines: seq<string>, b: string, end: nat, k: nat)
    requires k + 1 < |lines| && lines[|lines| - 1] == ""
    requires |a| + |Join(lines)| <= end <= |a + ("\n" + Join(lines)) + b|
    ensures HasLine((a + ("\n" + Join(lines)) + b)[|a| + 1..end], lines[k])
  {
    var section := Join(lines);
    JoinEndsLine(lines);
    JoinHolds(lines, k);
    BlockInSlice(a, section, b, end);
    LineOfBlock((a + ("\n" + section) + b)[|a| + 1..end], section[..|section| - 1], 0, lines[k]);
  }

  /** `l` is a whole line of that version's section. */
  predicate InSection(text: string, version: string, l: string) {
    Contains(text, VersionHeader(version)) && HasLine(SectionText(text, version), l)
  }

  lemma FoldReaches(a: string, lines: seq<string>, b: string, version: string, k: nat)
    requires a != "" && a[|a| - 1] == '\n' && SectionShape(VersionHeader(version), lines)
    requires !Contains(a, VersionHeader(version)) && k + 1 < |lines|
    ensures InSection(a + ("\n" + Join(lines)) + b, version, lines[k])
  {
    JoinStarts(lines, VersionHeader(version));
    var end := SectionReaches(a, lines, b, version);
    LineInSlice(a, lines, b, end, k);
  }

  // ---- a section with lines like version headers ---------------------------------------------------------

  lemma {:induction false} JoinSplits(lines: seq<string>, k: nat)
    requires 0 < k < |lines|
    ensures Join(lines) == Join(lines[..k] + [""]) + Join(lines[k..])
    ensures Join(lines[..k] + [""]) == Join(lines[..k]) + "\n"
  {
    var front := lines[..k] + [""];
    assert front[1..] == lines[1..][..k - 1] + [""];
    if k == 1 {
      assert lines[..1] == [lines[0]] && front == [lines[0], ""] && Join([""]) == "";
    } else {
      JoinSplits(lines[1..], k - 1);
      assert lines[..k][1..] == lines[1..][..k - 1] && lines[1..][k - 1..] == lines[k..];
    }
  }

  lemma TwoParts(a: string, first: string, second: string, b: string)
    ensures a + ("\n" + (first + second)) + b == a + ("\n" + first) + (second + b)
  {
    assert "\n" + (first + second) == ("\n" + first) + second;
    Regroup(a, "\n" + first, second);
    Regroup(a + ("\n" + first), second, b);
  }

  lemma FoldInTwo(a: string, lines: seq<string>, b: string, k: nat)
    requires 0 < k < |lines|
    ensures a + ("\n" + Join(lines)) + b == a + ("\n" + Join(lines[..k] + [""])) + (Join(lines[k..]) + b)
  {
    JoinSplits(lines, k);
    TwoParts(a, Join(lines[..k] + [""]), Join(lines[k..]), b);
  }

  lemma FrontReaches(text: string, version: string, section: string, front: seq<string>, rest: string, k: nat)
    requires Contains(text, ANCHOR) && !Contains(text, VersionHeader(version)) && section == Join(front) + rest
    requires k + 1 < |front| && SectionShape(VersionHeader(version), front)
    ensures InSection(Folded(text, section), version, front[k])
  {
    var a, b := FoldSplits(text, section);
    FrontLacks(a, b, VersionHeader(version));
    TwoParts(a, Join(front), rest, b);
    FoldReaches(a, front, rest + b, version, k);
  }

  lemma FrontEnd(lines: seq<string>, front: seq<string>, k: nat)
    requires k + 1 < |lines| && front == lines[..k + 1] + [""]
    ensures k + 1 < |front| && front[k] == lines[k] && Join(lines) == Join(front) + Join(lines[k + 1..])
  {
    JoinSplits(lines, k + 1);
  }

  /** A line in front of all lines like version headers is a line of the section, whatever follows it. */
  lemma FrontIsWhole(text: string, version: string, lines: seq<string>, front: seq<string>, k: nat)
    requires Contains(text, ANCHOR) && !Contains(text, VersionHeader(version))
    requires k + 1 < |lines| && front == lines[..k + 1] + [""] && SectionShape(VersionHeader(version), front)
    ensures InSection(Folded(text, Join(lines)), version, lines[k])
  {
    FrontEnd(lines, front, k);
    FrontReaches(text, version, Join(lines), front, Join(lines[k + 1..]), k);
  }

  lemma FirstMark(t: string, mark: string, from: nat, at: nat)
    requires from <= at <= |t| && At(t, mark, at)
    requires Find(t, mark, from).Some? ==> Find(t, mark, from).value >= at
    ensures Find(t, mark, from) == Some(at)
  {
  }

  lemma SectionInSlice(a: string, section: string, b: string)
    requires section != ""
    ensures (a + ("\n" + section) + b)[|a| + 1..|a| + |section|] == section[..|section| - 1]
  {
  }

  lemma NothingBefore(a: string, lines: seq<string>, b: string, header: string)
    requires SectionShape(header, lines)
    ensures Join(lines) != "" && Join(lines)[|Join(lines)| - 1] == '\n' && |header| < |Join(lines)|
    ensures var next := Find(a + ("\n" + Join(lines)) + b, "\n" + MARK, |a| + 1 + |header|);
      next.Some? ==> next.value >= |a| + |Join(lines)|
  {
    JoinEndsLine(lines);
    HeaderIsShorter(lines, header);
    NextHeaderIsBehind(a, lines, b, |a| + 1 + |header|);
  }

  lemma MarkBehind(a: string, section: string, b: string, t: string, mark: string, from: nat)
    requires section != "" && section[|section| - 1] == '\n' && At(b, MARK, 0)
    requires t == a + ("\n" + section) + b && mark == "\n" + MARK && from <= |a| + |section|
    requires Find(t, mark, from).Some? ==> Find(t, mark, from).value >= |a| + |section|
    ensures Find(t, mark, from) == Some(|a| + |section|)
  {
    MarkStandsThere(a, section, b);
    FirstMark(t, mark, from, |a| + |section|);
  }

  lemma MarkFollows(a: string, lines: seq<string>, b: string, t: string, mark: string, header: string)
    requires SectionShape(header, lines) && At(b, MARK, 0)
    requires t == a + ("\n" + Join(lines)) + b && mark == "\n" + MARK
    ensures Join(lines) != "" && |header| < |Join(lines)|
    ensures Find(t, mark, |a| + 1 + |header|) == Some(|a| + |Join(lines)|)
  {
    NothingBefore(a, lines, b, header);
    MarkBehind(a, Join(lines), b, t, mark, |a| + 1 + |header|);
  }

  lemma HeaderLeads(a: string, lines: seq<string>, b: string, header: string)
    requires a != "" && a[|a| - 1] == '\n' && SectionShape(header, lines) && !Contains(a, header)
    ensures Find(a + ("\n" + Join(lines)) + b, header, 0) == Some(|a| + 1)
  {
    JoinStarts(lines, header);
    HeaderIsFirst(a, Join(lines), b, header);
  }

  lemma BetweenHeaderAndMark(a: string, lines: seq<string>, b: string, t: string, mark: string, header: string)
    requires a != "" && a[|a| - 1] == '\n' && SectionShape(header, lines) && !Contains(a, header)
    requires t == a + ("\n" + Join(lines)) + b && mark == "\n" + MARK && At(b, MARK, 0)
    ensures Join(lines) != "" && |header| < |Join(lines)| && |a| + |Join(lines)| <= |t|
    ensures Find(t, header, 0) == Some(|a| + 1) && Find(t, mark, |a| + 1 + |header|) == Some(|a| + |Join(lines)|)
    ensures t[|a| + 1..|a| + |Join(lines)|] == Join(lines)[..|Join(lines)| - 1]
  {
    MarkFollows(a, lines, b, t, mark, header);
    HeaderLeads(a, lines, b, header);
    SectionInSlice(a, Join(lines), b);
  }

  /** A section read up to a mark right behind its lines. */
  lemma MarkEndsSection(a: string, lines: seq<string>, b: string, t: string, version: string)
    requires a != "" && a[|a| - 1] == '\n' && SectionShape(VersionHeader(version), lines)
    requires !Contains(a, VersionHeader(version)) && At(b, MARK, 0)
    requires t == a + ("\n" + Join(lines)) + b
    ensures Join(lines) != "" && Contains(t, VersionHeader(version))
    ensures SectionText(t, version) == Join(lines)[..|Join(lines)| - 1]
  {
    BetweenHeaderAndMark(a, lines, b, t, "\n" + MARK, VersionHeader(version));
    var end := SectionFrom(t, version, |a| + 1);
  }

  lemma MarkStandsThere(a: string, section: string, b: string)
    requires section != "" && section[|section| - 1] == '\n' && At(b, MARK, 0)
    ensures At(a + ("\n" + section) + b, "\n" + MARK, |a| + |section|)
  {
    var t := a + ("\n" + section) + b;
    assert t[|a| + |section|] == '\n';
    assert forall k :: 0 <= k < |b| ==> t[|a| + |section| + 1 + k] == b[k];
  }

  lemma HeaderIsShorter(lines: seq<string>, header: string)
    requires |lines| >= 2 && At(lines[0], header, 0)
    ensures |header| < |Join(lines)|
  {
  }

  /** A line of joined lines is one of them. */
  lemma {:induction false} LineOfJoin(lines: seq<string>, l: string)
    requires lines != [] && AllLegal(false, lines) && OneLine(l) && HasLine(Join(lines), l)
    ensures l in lines
  {
    var s := Join(lines);
    var i :| 0 <= i <= |s| && LineAt(s, l, i);
    if |lines| == 1 {
      assert lines[0] in lines && OneLine(s);
      assert s == l;
    } else {
      assert lines[0] in lines;
      FirstOrLater(lines[0], Join(lines[1..]), l, i);
      assert forall x :: x in lines[1..] ==> x in lines;
      if l != lines[0] {
        LineOfJoin(lines[1..], l);
      }
    }
  }

  lemma FirstOrLater(first: string, rest: string, l: string, i: nat)
    requires OneLine(first) && OneLine(l) && LineAt(first + "\n" + rest, l, i)
    ensures l == first || HasLine(rest, l)
  {
    var s := first + "\n" + rest;
    assert s[|first|] == '\n' && forall k :: 0 <= k < |first| ==> s[k] == first[k];
    if i == 0 {
      OccurrenceStaysOnLine(s, l, i, |first|);
      assert |l| == |first|;
      assert l == first;
    } else {
      assert i > |first|;
      assert forall k :: 0 <= k < |rest| ==> s[|first| + 1 + k] == rest[k];
      assert LineAt(rest, l, i - |first| - 1);
    }
  }

  lemma FrontOfShape(header: string, front: seq<string>)
    requires SectionShape(header, front + [""])
    ensures AllLegal(false, front)
  {
    forall x | x in front
      ensures Legal(false, x)
    {
      var k :| 0 <= k < |front| && front[k] == x;
      assert (front + [""])[k] == x;
    }
  }

  lemma NotAmongFront(header: string, front: seq<string>, l: string)
    requires front != [] && SectionShape(header, front + [""]) && OneLine(l) && l !in front
    ensures !HasLine(Join(front), l)
  {
    FrontOfShape(header, front);
    if HasLine(Join(front), l) {
      LineOfJoin(front, l);
      assert false;
    }
  }

  /** A line like a version header ends the section: nothing behind it is read as part of it. */
  lemma MarkHidesTheRest(text: string, version: string, lines: seq<string>, m: nat, l: string)
    requires Contains(text, ANCHOR) && !Contains(text, VersionHeader(version))
    requires 0 < m < |lines| && At(lines[m], MARK, 0) && SectionShape(VersionHeader(version), lines[..m] + [""])
    requires OneLine(l) && l !in lines[..m]
    ensures !InSection(Folded(text, Join(lines)), version, l)
  {
    var a, b := FoldSplits(text, Join(lines));
    FrontLacks(a, b, VersionHeader(version));
    FoldInTwo(a, lines, b, m);
    RestStarts(lines[m..], b);
    MarkEndsSection(a, lines[..m] + [""], Join(lines[m..]) + b, Folded(text, Join(lines)), version);
    JoinSplits(lines, m);
    LastDropped(Join(lines[..m]));
    NotAmongFront(VersionHeader(version), lines[..m], l);
  }

  lemma LastDropped(s: string)
    ensures (s + "\n")[..|s + "\n"| - 1] == s
  {
  }

  lemma RestStarts(lines: seq<string>, after: string)
    requires lines != [] && At(lines[0], MARK, 0)
    ensures At(Join(lines) + after, MARK, 0)
  {
    assert forall k :: 0 <= k < |lines[0]| ==> Join(lines)[k] == lines[0][k];
  }
}
