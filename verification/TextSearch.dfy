/** `in`, `index`, `find`, `replace(..., 1)` and `join` on text. */
module TextSearch {
  import opened Wrappers

  /** `p` stands in `s` at position `i`. */
  predicate At(s: string, p: string, i: nat) {
    i + |p| <= |s| && forall k :: 0 <= k < |p| ==> p[k] == s[i + k]
  }

  /** The first occurrence of `p` at or after `from`. */
  function Find(s: string, p: string, from: nat): (r: Option<nat>)
    requires from <= |s|
    ensures r.Some? ==> from <= r.value && At(s, p, r.value) && forall j :: from <= j < r.value ==> !At(s, p, j)
    ensures r.None? ==> forall j :: from <= j ==> !At(s, p, j)
    decreases |s| - from
  {
    if At(s, p, from) then Some(from)
    else if from == |s| then None
    else Find(s, p, from + 1)
  }

  predicate Contains(s: string, p: string)
    ensures Contains(s, p) <==> exists i: nat :: At(s, p, i)
  {
    Find(s, p, 0).Some?
  }

  function ReplaceFirst(s: string, p: string, q: string): string {
    match Find(s, p, 0)
    case None => s
    case Some(i) => s[..i] + q + s[i + |p|..]
  }

  function Join(lines: seq<string>): string {
    if lines == [] then ""
    else if |lines| == 1 then lines[0]
    else lines[0] + "\n" + Join(lines[1..])
  }

  predicate OneLine(s: string) {
    forall k :: 0 <= k < |s| ==> s[k] != '\n'
  }

  lemma CharAt(s: string, p: string, i: nat, k: nat)
    requires At(s, p, i)
    ensures i <= k < i + |p| ==> s[k] == p[k - i]
  {
    if i <= k < i + |p| {
      assert p[k - i] == s[i + (k - i)];
    }
  }

  /** An occurrence of a single line never covers a line end. */
  lemma OccurrenceStaysOnLine(s: string, p: string, i: nat, k: nat)
    requires At(s, p, i) && OneLine(p) && k < |s| && s[k] == '\n'
    ensures k < i || i + |p| <= k
  {
    CharAt(s, p, i, k);
  }

  /** `l` stands in `s` at position `i` from the beginning of a line to the end of one. */
  predicate LineAt(s: string, l: string, i: nat) {
    && At(s, l, i)
    && (i == 0 || s[i - 1] == '\n')
    && (i + |l| == |s| || s[i + |l|] == '\n')
  }

  /** `l` is a whole line of `s`. */
  predicate HasLine(s: string, l: string) {
    exists i :: 0 <= i <= |s| && LineAt(s, l, i)
  }

  /** The lines of a block of whole lines are lines of the text. */
  lemma LineOfBlock(t: string, block: string, from: nat, l: string)
    requires LineAt(t, block, from) && HasLine(block, l)
    ensures HasLine(t, l)
  {
    var i :| 0 <= i <= |block| && LineAt(block, l, i);
    forall k | 0 <= k < |block|
      ensures t[from + k] == block[k]
    {
      CharAt(t, block, from, from + k);
    }
    assert At(t, l, from + i);
    assert LineAt(t, l, from + i);
  }

  /** Whole lines put in right after a line end leave every other line whole. */
  lemma InsertionKeepsLines(a: string, inserted: string, b: string, l: string)
    requires a != "" && a[|a| - 1] == '\n' && OneLine(l) && HasLine(a + b, l)
    requires inserted != "" && inserted[|inserted| - 1] == '\n'
    ensures HasLine(a + inserted + b, l)
  {
    var i :| 0 <= i <= |a + b| && LineAt(a + b, l, i);
    OccurrenceStaysOnLine(a + b, l, i, |a| - 1);
    if i < |a| {
      assert LineAt(a + inserted + b, l, i);
    } else {
      assert LineAt(a + inserted + b, l, i + |inserted|);
    }
  }

  /** Every line but the last one is a line of the joined text without its final character. */
  lemma {:induction false} JoinHolds(lines: seq<string>, k: nat)
    requires k + 1 < |lines|
    ensures Join(lines) != "" && HasLine(Join(lines)[..|Join(lines)| - 1], lines[k])
  {
    var rest := Join(lines[1..]);
    var all := Join(lines);
    if k == 0 {
      assert LineAt(all[..|all| - 1], lines[0], 0);
    } else {
      JoinHolds(lines[1..], k - 1);
      assert all[..|all| - 1] == lines[0] + "\n" + rest[..|rest| - 1];
      assert LineAt(all[..|all| - 1], rest[..|rest| - 1], |lines[0]| + 1);
      LineOfBlock(all[..|all| - 1], rest[..|rest| - 1], |lines[0]| + 1, lines[k]);
    }
  }

  lemma {:induction false} JoinEndsLine(lines: seq<string>)
    requires |lines| >= 2 && lines[|lines| - 1] == ""
    ensures Join(lines) != "" && Join(lines)[|Join(lines)| - 1] == '\n'
  {
    if |lines| > 2 {
      JoinEndsLine(lines[1..]);
    }
  }

  /** What follows a line end inside joined lines begins with `mark` only if some line does. */
  lemma LineStart(lines: seq<string>, mark: string, after: string)
    requires |lines| >= 2 && OneLine(mark) && !At(lines[0], mark, 0)
    ensures !At(Join(lines) + after, mark, 0)
  {
    var s := Join(lines) + after;
    assert s[..|lines[0]|] == lines[0] && s[|lines[0]|] == '\n';
    if At(s, mark, 0) {
      OccurrenceStaysOnLine(s, mark, 0, |lines[0]|);
    }
  }

  lemma AtAfter(first: string, rest: string, mark: string, p: nat)
    requires p >= |first| + 1
    ensures At(first + "\n" + rest, mark, p) <==> At(rest, mark, p - |first| - 1)
  {
    var s := first + "\n" + rest;
    assert forall k :: 0 <= k < |rest| ==> s[|first| + 1 + k] == rest[k];
  }

  lemma AfterLineEnd(s: string, mark: string, p: nat)
    requires At(s, "\n" + mark, p)
    ensures s[p] == '\n' && At(s, mark, p + 1)
  {
    CharAt(s, "\n" + mark, p, p);
    forall k | 0 <= k < |mark|
      ensures mark[k] == s[p + 1 + k]
    {
      CharAt(s, "\n" + mark, p, p + 1 + k);
    }
  }

  /** No line end inside joined lines is followed by `mark`, unless it is the very last one. */
  lemma {:induction false} NoMarkInside(lines: seq<string>, mark: string, after: string, p: nat)
    requires |lines| >= 1 && lines[|lines| - 1] == "" && OneLine(mark)
    requires forall k :: 0 <= k < |lines| ==> OneLine(lines[k])
    requires forall k :: 1 <= k < |lines| - 1 ==> !At(lines[k], mark, 0)
    requires p + 1 < |Join(lines)|
    ensures !At(Join(lines) + after, "\n" + mark, p)
  {
    var rest := Join(lines[1..]);
    var s := Join(lines) + after;
    assert s == lines[0] + "\n" + (rest + after);
    if At(s, "\n" + mark, p) {
      AfterLineEnd(s, mark, p);
      AtAfter(lines[0], rest + after, mark, p + 1);
      if p == |lines[0]| {
        LineStart(lines[1..], mark, after);
      } else {
        AtAfter(lines[0], rest + after, "\n" + mark, p);
        NoMarkInside(lines[1..], mark, after, p - |lines[0]| - 1);
      }
    }
  }
}
