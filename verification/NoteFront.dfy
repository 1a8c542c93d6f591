/**
  Which notes the first fold of scripts/collate_changelog.py for a version files under that
  version.  A fragment may hold a line that begins like a version header; the section as a rerun
  reads it ends there, so what decides is whether such a line is rendered in front of the note.
*/
module NoteFronts {
  import opened Wrappers
  import opened TextSearch
  import opened Text
  import opened Changelog
  import opened CollateRuns
  import opened FoldedSections
  import opened CollateSafety

  predicate IsMark(l: string) {
    At(l, MARK, 0)
  }

  predicate NoMarks(lines: seq<string>) {
    forall k :: 0 <= k < |lines| ==> !IsMark(lines[k])
  }

  /** Line `k` is the note, and no line up to it is a mark. */
  predicate Leads(lines: seq<string>, l: string, k: nat) {
    k < |lines| && lines[k] == l && NoMarks(lines[..k + 1])
  }

  ghost predicate Leading(lines: seq<string>, l: string) {
    exists k: nat :: Leads(lines, l, k)
  }

  /** Rendered first: by the conventional order, then by text. */
  predicate SectionBefore(t: string, s: string) {
    Rank(SECTION_ORDER, t) < Rank(SECTION_ORDER, s)
    || (t !in SECTION_ORDER && s !in SECTION_ORDER && TextBefore(t, s))
  }

  /** In section `s` the note comes before all marks, and the sections before `s` have none. */
  ghost predicate Front(m: Sections, s: string, l: string) {
    Leading(LinesIn(m, s), l) && forall t :: SectionBefore(t, s) ==> NoMarks(LinesIn(m, t))
  }

  ghost predicate InFront(w: World, l: string) {
    exists s :: Front(Merged(w), s, l)
  }

  /** The fragments hold lines; when `strict`, none that is a mark. */
  predicate FragmentsLegal(strict: bool, w: World) {
    forall n :: n in w.fragments ==> AllLegal(strict, w.fragments[n])
  }

  lemma MergedLegal(strict: bool, w: World)
    requires FragmentsLegal(strict, w)
    ensures SectionsLegal(strict, Merged(w))
  {
    var names := Sorted(w.fragments.Keys);
    var files := FilesOf(w.fragments, names);
    forall f | f in files
      ensures AllLegal(strict, f)
    {
      var i :| 0 <= i < |files| && files[i] == f;
      assert names[i] in w.fragments.Keys;
    }
    CollectLegal(strict, files);
  }

  // ---- the order of sections ---------------------------------------------------------------------------

  lemma SectionBeforeIsStrict(t: string, s: string)
    requires SectionBefore(t, s)
    ensures t != s && !SectionBefore(s, t)
  {
    RankIsPlace(SECTION_ORDER, t);
    RankIsPlace(SECTION_ORDER, s);
    if TextBefore(t, s) {
      TextBeforeAsymmetric(t, s);
    }
  }

  lemma RenderedBefore(m: Sections, i: nat, j: nat)
    requires i < |Ordered(m)| && j < |Ordered(m)|
    ensures i < j <==> SectionBefore(Ordered(m)[i], Ordered(m)[j])
  {
    if i < j {
      SectionsReadTheSameWay(m, i, j);
    } else if j < i {
      SectionsReadTheSameWay(m, j, i);
      SectionBeforeIsStrict(Ordered(m)[j], Ordered(m)[i]);
    } else if SectionBefore(Ordered(m)[i], Ordered(m)[j]) {
      SectionBeforeIsStrict(Ordered(m)[i], Ordered(m)[j]);
      assert false;
    }
  }

  // ---- from sections to rendered lines -------------------------------------------------------------------

  lemma HeadingIsNoMark(t: string)
    requires CleanHeading(t)
    ensures !IsMark(t)
  {
    assert t[2] == HEADING[2] && MARK[2] != HEADING[2];
  }

  /** No mark in the sections rendered before `s`. */
  predicate ClearBefore(order: seq<string>, m: Sections, s: string) {
    forall i, j :: 0 <= i < j < |order| && order[j] == s ==> NoMarks(LinesIn(m, order[i]))
  }

  lemma ClearTail(order: seq<string>, m: Sections, s: string)
    requires order != [] && ClearBefore(order, m, s)
    ensures ClearBefore(order[1..], m, s)
    ensures s in order[1..] ==> NoMarks(LinesIn(m, order[0]))
  {
    forall i, j | 0 <= i < j < |order[1..]| && order[1..][j] == s
      ensures NoMarks(LinesIn(m, order[1..][i]))
    {
      assert order[j + 1] == s && order[i + 1] == order[1..][i];
    }
    if s in order[1..] {
      var j :| 0 <= j < |order[1..]| && order[1..][j] == s;
      assert order[j + 1] == s;
    }
  }

  function Block(m: Sections, s: string): seq<string> {
    [s, ""] + LinesIn(m, s) + [""]
  }

  lemma BlockLeads(m: Sections, s: string, l: string, k: nat)
    requires CleanHeading(s) && Leads(LinesIn(m, s), l, k)
    ensures Leads(Block(m, s), l, k + 2)
  {
    HeadingIsNoMark(s);
    var lines, block := LinesIn(m, s)[..k + 1], Block(m, s)[..k + 3];
    forall j | 0 <= j < |block|
      ensures !IsMark(block[j])
    {
      if j >= 2 {
        assert block[j] == lines[j - 2];
      }
    }
  }

  lemma BlockHasNoMarks(m: Sections, s: string)
    requires CleanHeading(s)
    ensures NoMarks(LinesIn(m, s)) ==> NoMarks(Block(m, s))
  {
    HeadingIsNoMark(s);
  }

  lemma LeadsInFirst(a: seq<string>, b: seq<string>, l: string, k: nat)
    ensures Leads(a, l, k) ==> Leads(a + b, l, k)
    ensures k < |a| && Leads(a + b, l, k) ==> Leads(a, l, k)
  {
    if k < |a| {
      assert (a + b)[..k + 1] == a[..k + 1];
    }
  }

  lemma LeadsInSecond(a: seq<string>, b: seq<string>, l: string, k: nat)
    ensures NoMarks(a) && Leads(b, l, k) ==> Leads(a + b, l, |a| + k)
    ensures k >= |a| && Leads(a + b, l, k) ==> NoMarks(a) && Leads(b, l, k - |a|)
  {
    if k < |b| {
      var upTo := (a + b)[..|a| + k + 1];
      assert upTo == a + b[..k + 1];
    }
    if |a| <= k < |a + b| {
      var upTo, ofB := (a + b)[..k + 1], b[..k - |a| + 1];
      assert upTo == a + ofB;
      assert forall j :: 0 <= j < |a| ==> a[j] == upTo[j];
      assert forall j :: 0 <= j < |ofB| ==> ofB[j] == upTo[|a| + j];
    }
  }

  predicate AllHeadings(order: seq<string>) {
    forall i :: 0 <= i < |order| ==> CleanHeading(order[i])
  }

  lemma BodyCons(order: seq<string>, m: Sections)
    requires order != [] && AllHeadings(order)
    ensures Body(order, m) == Block(m, order[0]) + Body(order[1..], m)
    ensures CleanHeading(order[0]) && AllHeadings(order[1..])
  {
  }

  lemma InRest(order: seq<string>, s: string)
    requires s in order && order[0] != s
    ensures s in order[1..]
  {
    var i :| 0 <= i < |order| && order[i] == s;
    assert order[1..][i - 1] == s;
  }

  lemma RestIn(order: seq<string>, s: string)
    requires order != [] && s in order[1..]
    ensures s in order
  {
    var i :| 0 <= i < |order[1..]| && order[1..][i] == s;
    assert order[i + 1] == s;
  }

  lemma BodyLeadsFirst(order: seq<string>, m: Sections, l: string) returns (k: nat)
    requires order != [] && AllHeadings(order) && Leading(LinesIn(m, order[0]), l)
    ensures Leads(Body(order, m), l, k)
  {
    BodyCons(order, m);
    var j: nat :| Leads(LinesIn(m, order[0]), l, j);
    BlockLeads(m, order[0], l, j);
    LeadsInFirst(Block(m, order[0]), Body(order[1..], m), l, j + 2);
    k := j + 2;
  }

  lemma LeadsBehind(all: seq<string>, a: seq<string>, b: seq<string>, l: string, j: nat)
    requires all == a + b && NoMarks(a) && Leads(b, l, j)
    ensures Leads(all, l, |a| + j)
  {
    LeadsInSecond(a, b, l, j);
  }

  lemma BodyLeadsLater(order: seq<string>, m: Sections, l: string, j: nat) returns (k: nat)
    requires order != [] && AllHeadings(order) && NoMarks(LinesIn(m, order[0]))
    requires Leads(Body(order[1..], m), l, j)
    ensures Leads(Body(order, m), l, k)
  {
    var block, rest, all := Block(m, order[0]), Body(order[1..], m), Body(order, m);
    BodyCons(order, m);
    BlockHasNoMarks(m, order[0]);
    LeadsBehind(all, block, rest, l, j);
    k := |block| + j;
  }

  lemma {:induction false} BodyLeads(order: seq<string>, m: Sections, s: string, l: string) returns (k: nat)
    requires s in order && Leading(LinesIn(m, s), l) && ClearBefore(order, m, s)
    requires AllHeadings(order)
    ensures Leads(Body(order, m), l, k)
  {
    if order[0] == s {
      k := BodyLeadsFirst(order, m, l);
    } else {
      InRest(order, s);
      ClearTail(order, m, s);
      var j := BodyLeads(order[1..], m, s, l);
      k := BodyLeadsLater(order, m, l, j);
    }
  }

  // ---- and back --------------------------------------------------------------------------------------------

  lemma BlockLeadsBack(m: Sections, s: string, l: string, k: nat)
    requires CleanHeading(s) && CleanBullet(l) && Leads(Block(m, s), l, k)
    ensures k >= 2 && Leads(LinesIn(m, s), l, k - 2)
  {
    assert k != 0 && k != 1 && k != |Block(m, s)| - 1;
    var lines, block := LinesIn(m, s)[..k - 1], Block(m, s)[..k + 1];
    assert forall j :: 0 <= j < |lines| ==> lines[j] == block[j + 2];
  }

  lemma BlockNoMarksBack(m: Sections, s: string)
    requires NoMarks(Block(m, s))
    ensures NoMarks(LinesIn(m, s))
  {
    assert forall j :: 0 <= j < |LinesIn(m, s)| ==> LinesIn(m, s)[j] == Block(m, s)[j + 2];
  }

  lemma ClearCons(order: seq<string>, m: Sections, s: string)
    requires order != [] && ClearBefore(order[1..], m, s) && NoMarks(LinesIn(m, order[0]))
    ensures ClearBefore(order, m, s)
  {
    forall i, j | 0 <= i < j < |order| && order[j] == s
      ensures NoMarks(LinesIn(m, order[i]))
    {
      if i > 0 {
        assert order[1..][j - 1] == s && order[1..][i - 1] == order[i];
      }
    }
  }

  lemma BodyBackFirst(order: seq<string>, m: Sections, l: string, k: nat)
    requires order != [] && AllHeadings(order) && CleanBullet(l)
    requires Leads(Body(order, m), l, k) && k < |Block(m, order[0])|
    ensures Leading(LinesIn(m, order[0]), l)
  {
    BodyCons(order, m);
    LeadsInFirst(Block(m, order[0]), Body(order[1..], m), l, k);
    BlockLeadsBack(m, order[0], l, k);
  }

  lemma BodyBackLater(order: seq<string>, m: Sections, l: string, k: nat)
    requires order != [] && AllHeadings(order)
    requires Leads(Body(order, m), l, k) && k >= |Block(m, order[0])|
    ensures NoMarks(LinesIn(m, order[0])) && Leads(Body(order[1..], m), l, k - |Block(m, order[0])|)
    ensures AllHeadings(order[1..])
  {
    BodyCons(order, m);
    LeadsInSecond(Block(m, order[0]), Body(order[1..], m), l, k);
    BlockNoMarksBack(m, order[0]);
  }

  lemma FirstIsClear(order: seq<string>, m: Sections)
    requires order != [] && Distinct(order)
    ensures ClearBefore(order, m, order[0]) && Distinct(order[1..])
  {
  }

  lemma ClearInRest(order: seq<string>, m: Sections, s: string)
    requires order != [] && s in order[1..] && ClearBefore(order[1..], m, s) && NoMarks(LinesIn(m, order[0]))
    ensures s in order && ClearBefore(order, m, s)
  {
    RestIn(order, s);
    ClearCons(order, m, s);
  }

  lemma {:induction false} BodyLeadsBack(order: seq<string>, m: Sections, l: string, k: nat) returns (s: string)
    requires Distinct(order) && CleanBullet(l) && Leads(Body(order, m), l, k)
    requires AllHeadings(order)
    ensures s in order && Leading(LinesIn(m, s), l) && ClearBefore(order, m, s)
    decreases |order|
  {
    FirstIsClear(order, m);
    var n := |Block(m, order[0])|;
    if k < n {
      s := order[0];
      BodyBackFirst(order, m, l, k);
    } else {
      BodyBackLater(order, m, l, k);
      s := BodyLeadsBack(order[1..], m, l, k - n);
      ClearInRest(order, m, s);
    }
  }

  lemma OrderedHeadings(m: Sections)
    requires WellFormed(m)
    ensures Distinct(Ordered(m)) && AllHeadings(Ordered(m))
  {
    OrderedListsEachOnce(m);
    assert forall i :: 0 <= i < |Ordered(m)| ==> Ordered(m)[i] in Ordered(m);
  }

  lemma FrontIsClear(m: Sections, s: string, l: string)
    requires Front(m, s, l)
    ensures ClearBefore(Ordered(m), m, s) && s in Ordered(m)
  {
    OrderedListsEachOnce(m);
    var order := Ordered(m);
    forall i, j | 0 <= i < j < |order| && order[j] == s
      ensures NoMarks(LinesIn(m, order[i]))
    {
      RenderedBefore(m, i, j);
    }
  }

  lemma ClearIsFront(m: Sections, s: string, l: string)
    requires s in Ordered(m) && Leading(LinesIn(m, s), l) && ClearBefore(Ordered(m), m, s)
    ensures Front(m, s, l)
  {
    OrderedListsEachOnce(m);
    var order := Ordered(m);
    var j :| 0 <= j < |order| && order[j] == s;
    forall t | SectionBefore(t, s)
      ensures NoMarks(LinesIn(m, t))
    {
      if t in m {
        var i :| 0 <= i < |order| && order[i] == t;
        RenderedBefore(m, i, j);
      }
    }
  }

  /** The note is rendered in front of all marks exactly when it is so among the sections. */
  lemma RenderedInFrontIff(m: Sections, l: string)
    requires WellFormed(m) && CleanBullet(l)
    ensures Leading(Body(Ordered(m), m), l) <==> exists s :: Front(m, s, l)
  {
    OrderedHeadings(m);
    if s :| Front(m, s, l) {
      FrontIsClear(m, s, l);
      var k := BodyLeads(Ordered(m), m, s, l);
    }
    if Leading(Body(Ordered(m), m), l) {
      var k: nat :| Leads(Body(Ordered(m), m), l, k);
      var s := BodyLeadsBack(Ordered(m), m, l, k);
      ClearIsFront(m, s, l);
    }
  }

  // ---- the fold ----------------------------------------------------------------------------------------------

  lemma MergedIsWellFormed(w: World)
    ensures WellFormed(Merged(w))
  {
    CollectGathers(FilesOf(w.fragments, Sorted(w.fragments.Keys)), "");
  }

  function FirstLine(version: string, today: string): string {
    VersionHeader(version) + " - " + today
  }

  function UnderHeader(first: string, body: seq<string>): (lines: seq<string>)
    ensures |lines| == |body| + 2 && lines[0] == first && lines[1] == ""
    ensures forall k :: 0 <= k < |body| ==> lines[k + 2] == body[k]
  {
    [first, ""] + body
  }

  /** The lines up to the first mark, closed with a line end, have the shape of a section. */
  lemma FrontShape(header: string, lines: seq<string>, n: nat)
    requires 1 <= n <= |lines| && AllLegal(false, lines) && At(lines[0], header, 0) && header != "" && OneLine(header)
    requires forall k :: 1 <= k < n ==> !IsMark(lines[k])
    ensures SectionShape(header, lines[..n] + [""])
  {
    var front := lines[..n] + [""];
    assert lines[0] in lines;
    forall k | 1 <= k < |front|
      ensures Legal(true, front[k])
    {
      if k < n {
        assert front[k] == lines[k] && lines[k] in lines;
      }
    }
  }

  lemma LeadsMeansNoMark(lines: seq<string>, l: string, k: nat)
    requires Leads(lines, l, k)
    ensures forall j :: 0 <= j <= k ==> !IsMark(lines[j])
  {
    assert forall j :: 0 <= j <= k ==> lines[j] == lines[..k + 1][j];
  }

  lemma NoMarkUnderHeader(first: string, body: seq<string>, k: nat)
    requires k < |body| && forall j :: 0 <= j <= k ==> !IsMark(body[j])
    ensures forall j :: 1 <= j <= k + 2 ==> !IsMark(UnderHeader(first, body)[j])
  {
    forall j | 1 <= j <= k + 2
      ensures !IsMark(UnderHeader(first, body)[j])
    {
      assert j >= 2 ==> UnderHeader(first, body)[j] == body[j - 2];
    }
  }

  /** The shape of what the script renders: a first line with the header, a blank one, and the body. */
  predicate Rendered(header: string, first: string, body: seq<string>) {
    && header != "" && OneLine(header) && At(first, header, 0) && AllLegal(false, UnderHeader(first, body))
    && (body != [] ==> body[|body| - 1] == "")
  }

  lemma FrontShapeUnder(header: string, first: string, body: seq<string>, k: nat)
    requires Rendered(header, first, body)
    requires k < |body| && forall j :: 0 <= j <= k ==> !IsMark(body[j])
    ensures SectionShape(header, UnderHeader(first, body)[..k + 3] + [""])
  {
    NoMarkUnderHeader(first, body, k);
    FrontShape(header, UnderHeader(first, body), k + 3);
  }

  lemma FrontOfRendered(text: string, version: string, first: string, body: seq<string>, l: string)
    requires Contains(text, ANCHOR) && !Contains(text, VersionHeader(version))
    requires Rendered(VersionHeader(version), first, body) && Leading(body, l) && l != ""
    ensures InSection(Folded(text, Join(UnderHeader(first, body))), version, l)
  {
    var k: nat :| Leads(body, l, k);
    LeadsMeansNoMark(body, l, k);
    FrontShapeUnder(VersionHeader(version), first, body, k);
    var lines := UnderHeader(first, body);
    FrontIsWhole(text, version, lines, lines[..k + 3] + [""], k + 2);
  }

  /** The first mark behind the first line, or the number of lines. */
  function FirstMarkIn(lines: seq<string>, from: nat): (n: nat)
    requires from <= |lines|
    ensures from <= n <= |lines|
    ensures forall k :: from <= k < n ==> !IsMark(lines[k])
    ensures n < |lines| ==> IsMark(lines[n])
    decreases |lines| - from
  {
    if from == |lines| || IsMark(lines[from]) then from else FirstMarkIn(lines, from + 1)
  }

  lemma LeadsUpTo(first: string, body: seq<string>, k: nat, n: nat)
    requires k < |body| && k + 2 < n <= |body| + 2
    requires forall j :: 1 <= j < n ==> !IsMark(UnderHeader(first, body)[j])
    ensures Leads(body, body[k], k)
  {
    var front := body[..k + 1];
    assert forall i :: 0 <= i < |front| ==> front[i] == UnderHeader(first, body)[i + 2];
  }

  lemma NotLeadingIsBehind(first: string, body: seq<string>, l: string, n: nat)
    requires !Leading(body, l) && l != "" && l != first && 1 <= n <= |body| + 2
    requires forall j :: 1 <= j < n ==> !IsMark(UnderHeader(first, body)[j])
    ensures l !in UnderHeader(first, body)[..n]
  {
    forall j | 0 <= j < n
      ensures UnderHeader(first, body)[j] != l
    {
      if j >= 2 {
        LeadsUpTo(first, body, j - 2, n);
      }
    }
  }

  lemma EarlyLine(lines: seq<string>, k: nat, n: nat)
    requires k < n <= |lines|
    ensures lines[k] in lines[..n]
  {
    assert lines[..n][k] == lines[k];
  }

  lemma BehindOfRendered(text: string, version: string, first: string, body: seq<string>, l: string)
    requires Contains(text, ANCHOR) && !Contains(text, VersionHeader(version))
    requires Rendered(VersionHeader(version), first, body)
    requires !Leading(body, l) && l in body && l != "" && l != first
    ensures !InSection(Folded(text, Join(UnderHeader(first, body))), version, l)
  {
    var lines := UnderHeader(first, body);
    var at: nat :| at < |body| && body[at] == l;
    var mark := FirstMarkIn(lines, 1);
    NotLeadingIsBehind(first, body, l, mark);
    var place: nat := at + 2;
    if place < mark {
      EarlyLine(lines, place, mark);
      assert false;
    }
    assert lines[place] in lines;
    FrontShape(VersionHeader(version), lines, mark);
    MarkHidesTheRest(text, version, lines, mark, l);
  }

  lemma HeaderInFirstLine(version: string, today: string)
    requires OneLine(version) && OneLine(today)
    ensures OneLine(FirstLine(version, today)) && OneLine(VersionHeader(version)) && VersionHeader(version) != ""
    ensures At(FirstLine(version, today), VersionHeader(version), 0)
  {
  }

  lemma UnderHeaderIsLegal(first: string, body: seq<string>)
    requires OneLine(first) && AllLegal(false, body)
    ensures AllLegal(false, UnderHeader(first, body))
  {
  }

  lemma SectionIsRendered(w: World, version: string, today: string)
    requires FragmentsLegal(false, w) && OneLine(version) && OneLine(today)
    ensures var m := Merged(w);
      && RenderLines(version, m, today) == UnderHeader(FirstLine(version, today), Body(Ordered(m), m))
      && Rendered(VersionHeader(version), FirstLine(version, today), Body(Ordered(m), m))
  {
    var m := Merged(w);
    MergedLegal(false, w);
    OrderedListsEachOnce(m);
    BodyLegal(false, Ordered(m), m);
    HeaderInFirstLine(version, today);
    UnderHeaderIsLegal(FirstLine(version, today), Body(Ordered(m), m));
    BodyEnds(Ordered(m), m);
  }

  lemma BulletInBody(w: World, n: string, l: string)
    requires n in w.fragments && HasBullet(w.fragments[n], l)
    ensures CleanBullet(l) && l in Body(Ordered(Merged(w)), Merged(w))
  {
    var m := Merged(w);
    MergedIsWellFormed(w);
    OrderedListsEachOnce(m);
    var s := MergedHas(w, n, l);
    var k := BodyHas(Ordered(m), m, s, l);
  }

  /**
    A complete fold files a note under its version, as a rerun reads the section, exactly when the
    note is rendered in front of all lines that begin like a version header (or is itself the line
    the section begins with).
  */
  lemma FiledIff(w: World, version: string, today: string, n: string, l: string)
    requires Contains(w.text, ANCHOR) && !Written(w, version) && FragmentsLegal(false, w)
    requires OneLine(version) && OneLine(today) && n in w.fragments && HasBullet(w.fragments[n], l)
    ensures InFront(w, l) ==> InSection(Folded(w.text, Section(version, Merged(w), today)), version, l)
    ensures l != FirstLine(version, today) ==>
      (InSection(Folded(w.text, Section(version, Merged(w), today)), version, l) <==> InFront(w, l))
  {
    var m := Merged(w);
    MergedIsWellFormed(w);
    BulletInBody(w, n, l);
    RenderedInFrontIff(m, l);
    SectionIsRendered(w, version, today);
    if InFront(w, l) {
      FrontOfRendered(w.text, version, FirstLine(version, today), Body(Ordered(m), m), l);
    } else if l != FirstLine(version, today) {
      BehindOfRendered(w.text, version, FirstLine(version, today), Body(Ordered(m), m), l);
    }
  }
}
