/** The few operations on text that several components share. */
module Text {
  predicate IsSpace(c: char) {
    c == ' ' || '\t' <= c <= '\r' || '\U{1C}' <= c <= '\U{1F}'
  }

  function LStrip(s: string): (r: string)
    ensures |r| <= |s| && r == s[|s| - |r|..]
    ensures r != "" ==> !IsSpace(r[0])
  {
    if s != "" && IsSpace(s[0]) then LStrip(s[1..]) else s
  }

  function RStrip(s: string): (r: string)
    ensures |r| <= |s| && r == s[..|r|]
    ensures r != "" ==> !IsSpace(r[|r| - 1])
    ensures forall k :: |r| <= k < |s| ==> IsSpace(s[k])
  {
    if s != "" && IsSpace(s[|s| - 1]) then RStrip(s[..|s| - 1]) else s
  }

  /** Text order, character by character, a proper prefix first. */
  predicate TextBefore(a: string, b: string) {
    if b == "" then false
    else if a == "" then true
    else if a[0] != b[0] then a[0] < b[0]
    else TextBefore(a[1..], b[1..])
  }

  function Strip(s: string): string {
    LStrip(RStrip(s))
  }

  /** `s` is `t` between blanks, and `t` neither begins nor ends with one. */
  ghost predicate Between(s: string, t: string, front: nat) {
    && front + |t| <= |s| && s[front..front + |t|] == t
    && (forall k :: 0 <= k < front ==> IsSpace(s[k]))
    && (forall k :: front + |t| <= k < |s| ==> IsSpace(s[k]))
    && (t != "" ==> !IsSpace(t[0]) && !IsSpace(t[|t| - 1]))
  }

  lemma DropsOneMore(s: string, rest: string, n: nat)
    requires s != "" && IsSpace(s[0]) && rest == s[1..] && n <= |rest| && forall k :: 0 <= k < n ==> IsSpace(rest[k])
    ensures rest[n..] == s[n + 1..] && forall k :: 0 <= k < n + 1 ==> IsSpace(s[k])
  {
    assert forall k :: 1 <= k < |s| ==> s[k] == rest[k - 1];
  }

  lemma {:induction false} LStripDrops(s: string) returns (front: nat)
    ensures front <= |s| && LStrip(s) == s[front..] && forall k :: 0 <= k < front ==> IsSpace(s[k])
  {
    if s != "" && IsSpace(s[0]) {
      var n := LStripDrops(s[1..]);
      DropsOneMore(s, s[1..], n);
      front := n + 1;
    } else {
      front := 0;
      assert s[0..] == s;
    }
  }

  lemma PiecesBetween(s: string, r: string, t: string, front: nat)
    requires |r| <= |s| && r == s[..|r|] && front <= |r| && t == r[front..]
    requires forall k :: |r| <= k < |s| ==> IsSpace(s[k])
    requires forall k :: 0 <= k < front ==> IsSpace(r[k])
    requires r != "" ==> !IsSpace(r[|r| - 1])
    requires t != "" ==> !IsSpace(t[0])
    ensures Between(s, t, front)
  {
    assert t != "" ==> t[|t| - 1] == r[|r| - 1];
    assert forall k :: 0 <= k < |r| ==> s[k] == r[k];
  }

  lemma StripShorter(s: string, shorter: string)
    requires s != "" && IsSpace(s[|s| - 1]) && shorter == s[..|s| - 1]
    ensures Strip(s) == Strip(shorter)
  {
  }

  lemma StripNoneBehind(s: string)
    requires s != "" ==> !IsSpace(s[|s| - 1])
    ensures Strip(s) == LStrip(s)
  {
  }

  lemma BetweenInLonger(s: string, shorter: string, t: string, front: nat)
    requires s != "" && IsSpace(s[|s| - 1]) && shorter == s[..|s| - 1] && Between(shorter, t, front)
    ensures Between(s, t, front)
  {
    assert forall k :: 0 <= k < |shorter| ==> s[k] == shorter[k];
  }

  lemma {:induction false} StripIsBetween(s: string) returns (front: nat)
    ensures Between(s, Strip(s), front)
  {
    if s != "" && IsSpace(s[|s| - 1]) {
      var shorter := s[..|s| - 1];
      front := StripIsBetween(shorter);
      StripShorter(s, shorter);
      BetweenInLonger(s, shorter, Strip(shorter), front);
    } else {
      front := LStripDrops(s);
      StripNoneBehind(s);
      PiecesBetween(s, s, LStrip(s), front);
    }
  }

  lemma SliceOfSlice(s: string, front: nat, n: nat, r: string, t: string)
    requires front < n <= |s| && r == s[..n] && t == s[front..n]
    ensures |r| == n && r[front..] == t && r[front] == t[0] && s[n - 1] == t[|t| - 1]
    ensures forall k :: 0 <= k < n ==> r[k] == s[k]
  {
  }

  lemma CutBothEnds(s: string, front: nat, n: nat)
    requires front < n <= |s| && !IsSpace(s[front]) && !IsSpace(s[n - 1])
    requires forall k :: 0 <= k < front ==> IsSpace(s[k])
    requires forall k :: n <= k < |s| ==> IsSpace(s[k])
    ensures Strip(s) == s[..n][front..]
  {
    RStripEnds(s, n);
    LStripStarts(s[..n], front);
  }

  lemma BetweenIsStrip(s: string, t: string, front: nat)
    requires Between(s, t, front)
    ensures Strip(s) == t
  {
    if t == "" {
      AllBlank(s);
    } else {
      SliceOfSlice(s, front, front + |t|, s[..front + |t|], t);
      CutBothEnds(s, front, front + |t|);
    }
  }

  /** `t` is `s` without the blanks at both ends. */
  ghost predicate TrimmedTo(s: string, t: string) {
    exists front: nat :: Between(s, t, front)
  }

  /** Stripping takes the blanks off both ends, and nothing else. */
  lemma StripIff(s: string, t: string)
    ensures Strip(s) == t <==> TrimmedTo(s, t)
  {
    var at := StripIsBetween(s);
    if TrimmedTo(s, t) {
      var front: nat :| Between(s, t, front);
      BetweenIsStrip(s, t, front);
    }
  }

  lemma {:induction false} AllBlank(s: string)
    requires forall k :: 0 <= k < |s| ==> IsSpace(s[k])
    ensures Strip(s) == ""
  {
    if s != "" {
      AllBlank(s[..|s| - 1]);
    }
  }

  lemma RStripEnds(s: string, n: nat)
    requires 0 < n <= |s| && !IsSpace(s[n - 1]) && forall k :: n <= k < |s| ==> IsSpace(s[k])
    ensures RStrip(s) == s[..n]
  {
    var r := RStrip(s);
    assert r != "" ==> !IsSpace(s[|r| - 1]);
  }

  lemma LStripStarts(s: string, n: nat)
    requires n < |s| && !IsSpace(s[n]) && forall k :: 0 <= k < n ==> IsSpace(s[k])
    ensures LStrip(s) == s[n..]
  {
    var front := LStripDrops(s);
    assert front < |s| ==> s[front..][0] == s[front];
  }

  lemma StripKeeps(s: string)
    requires s != "" && !IsSpace(s[0]) && !IsSpace(s[|s| - 1])
    ensures Strip(s) == s
  {
    RStripKeeps(s);
    LStripKeeps(s);
  }

  lemma RStripKeeps(s: string)
    requires s != "" && !IsSpace(s[|s| - 1])
    ensures RStrip(s) == s
  {
  }

  lemma LStripKeeps(s: string)
    requires s != "" && !IsSpace(s[0])
    ensures LStrip(s) == s
  {
  }
}
