/**
  Canonical agent ids of tinyagentos/agent_registry_store.py: how a name becomes a slug, how
  `register` finds an id that is free, and which rows `get_by_slug` takes for a slug's own.
*/
module AgentIds {
  import opened Wrappers
  import opened Text

  // ---- slugs -----------------------------------------------------------------------------------

  predicate IsDigit(c: char) {
    '0' <= c <= '9'
  }

  predicate IsAlnum(c: char) {
    IsDigit(c) || 'a' <= c <= 'z'
  }

  function DropOthers(s: string): (r: string)
    ensures |r| <= |s| && r == s[|s| - |r|..]
    ensures s != "" && !IsAlnum(s[0]) ==> |r| < |s|
    ensures r != "" ==> IsAlnum(r[0])
  {
    if s == "" || IsAlnum(s[0]) then s else DropOthers(s[1..])
  }

  /** Every run of other characters becomes one hyphen. */
  function Collapse(s: string): string
    decreases |s|
  {
    if s == "" then ""
    else if IsAlnum(s[0]) then [s[0]] + Collapse(s[1..])
    else "-" + Collapse(DropOthers(s))
  }

  function LTrim(s: string): (r: string)
    ensures |r| <= |s| && r == s[|s| - |r|..]
    ensures r != "" ==> r[0] != '-'
    ensures forall k :: 0 <= k < |s| - |r| ==> s[k] == '-'
  {
    if s != "" && s[0] == '-' then LTrim(s[1..]) else s
  }

  function RTrim(s: string): (r: string)
    ensures |r| <= |s| && r == s[..|r|]
    ensures r != "" ==> r[|r| - 1] != '-'
    ensures forall k :: |r| <= k < |s| ==> s[k] == '-'
  {
    if s != "" && s[|s| - 1] == '-' then RTrim(s[..|s| - 1]) else s
  }

  function Slugify(lower: string -> string, text: string): string {
    var trimmed := RTrim(LTrim(Collapse(Strip(lower(text)))));
    if trimmed == "" then "agent" else trimmed
  }

  predicate SlugChars(s: string) {
    forall k :: 0 <= k < |s| ==> IsAlnum(s[k]) || s[k] == '-'
  }

  predicate NoDoubleHyphen(s: string) {
    forall k :: 0 <= k < |s| && s[k] == '-' ==> k + 1 == |s| || s[k + 1] != '-'
  }

  lemma SlicesKeepShape(s: string, i: nat, j: nat)
    requires SlugChars(s) && NoDoubleHyphen(s) && i <= j <= |s|
    ensures SlugChars(s[i..j]) && NoDoubleHyphen(s[i..j])
  {
    var t := s[i..j];
    assert forall k :: 0 <= k < |t| ==> t[k] == s[i + k];
  }

  /** Lower-case letters, digits and single hyphens between them. */
  predicate IsSlug(s: string) {
    s != "" && SlugChars(s) && NoDoubleHyphen(s) && s[0] != '-' && s[|s| - 1] != '-'
  }

  lemma {:induction false} CollapseShape(s: string)
    ensures SlugChars(Collapse(s)) && NoDoubleHyphen(Collapse(s))
    ensures Collapse(s) != "" && s != "" && IsAlnum(s[0]) ==> Collapse(s)[0] != '-'
    ensures s == "" ==> Collapse(s) == ""
    decreases |s|
  {
    if s != "" {
      CollapseShape(if IsAlnum(s[0]) then s[1..] else DropOthers(s));
    }
  }

  /** Whatever the name and however it is lower-cased, its slug has the shape of a slug. */
  lemma SlugifyShape(lower: string -> string, text: string)
    ensures IsSlug(Slugify(lower, text))
  {
    var stripped := Strip(lower(text));
    CollapseShape(stripped);
    TrimmedShape(Collapse(stripped));
    AgentIsSlug();
  }

  lemma AgentIsSlug()
    ensures IsSlug("agent")
  {
    var s := "agent";
    assert |s| == 5 && s[0] == 'a' && s[1] == 'g' && s[2] == 'e' && s[3] == 'n' && s[4] == 't';
  }

  lemma TrimmedShape(c: string)
    requires SlugChars(c) && NoDoubleHyphen(c)
    ensures RTrim(LTrim(c)) != "" ==> IsSlug(RTrim(LTrim(c)))
  {
    var l := LTrim(c);
    SlicesKeepShape(c, |c| - |l|, |c|);
    assert l == c[|c| - |l|..|c|];
    SlicesKeepShape(l, 0, |RTrim(l)|);
    assert RTrim(l) == l[0..|RTrim(l)|];
  }

  // ---- which slug ------------------------------------------------------------------------------

  /**
    The slug in one pass from left to right: letters and digits are copied, and a hyphen goes in front
    of one that was separated from the one before it.  `begun`: one was copied; `gap`: others came since.
  */
  function Spelled(s: string, begun: bool, gap: bool): string {
    if s == "" then ""
    else if !IsAlnum(s[0]) then Spelled(s[1..], begun, true)
    else (if begun && gap then "-" else "") + [s[0]] + Spelled(s[1..], true, false)
  }

  /** The letters and digits of `s`. */
  function Letters(s: string): string {
    if s == "" then "" else (if IsAlnum(s[0]) then [s[0]] else "") + Letters(s[1..])
  }

  lemma LettersInFront(a: string, c: char, rest: string)
    requires a == "" || a == "-"
    ensures Letters(a + [c] + rest) == (if IsAlnum(c) then [c] else "") + Letters(rest)
  {
    var s := a + [c] + rest;
    if a == "" {
      assert s[0] == c && s[1..] == rest;
    } else {
      assert s[0] == '-' && s[1..] == [c] + rest;
      assert ([c] + rest)[1..] == rest;
      assert Letters([c] + rest) == (if IsAlnum(c) then [c] else "") + Letters(rest);
    }
  }

  lemma {:induction false} SpelledKeepsLetters(s: string, begun: bool, gap: bool)
    ensures Letters(Spelled(s, begun, gap)) == Letters(s)
  {
    if s != "" {
      if IsAlnum(s[0]) {
        SpelledKeepsLetters(s[1..], true, false);
        LettersInFront(if begun && gap then "-" else "", s[0], Spelled(s[1..], true, false));
      } else {
        SpelledKeepsLetters(s[1..], begun, true);
      }
    }
  }

  lemma {:induction false} SpelledEnds(s: string, begun: bool, gap: bool)
    ensures var r := Spelled(s, begun, gap);
      r != "" ==> IsAlnum(r[|r| - 1]) && (!begun ==> IsAlnum(r[0]))
  {
    if s != "" {
      SpelledEnds(s[1..], if IsAlnum(s[0]) then true else begun, !IsAlnum(s[0]));
    }
  }

  lemma {:induction false} SpelledDropsOthers(s: string, begun: bool, gap: bool)
    requires s != "" && !IsAlnum(s[0])
    ensures Spelled(s, begun, gap) == Spelled(DropOthers(s), begun, true)
  {
    if s[1..] != "" && !IsAlnum(s[1]) {
      SpelledDropsOthers(s[1..], begun, true);
    }
  }

  function Tail(s: string): string {
    if s != "" && !IsAlnum(s[|s| - 1]) then "-" else ""
  }

  lemma OneMore(c: string, a: string, b: string, tail: string)
    requires a == b + tail
    ensures c + a == (c + b) + tail
  {
  }

  lemma OthersOnly(s: string)
    requires DropOthers(s) == ""
    ensures s == "" || !IsAlnum(s[|s| - 1])
  {
    DropsOthersOnly(s);
  }

  lemma SameTail(s: string, rest: string)
    requires s != "" && rest == s[1..] && (rest == "" ==> IsAlnum(s[0]))
    ensures Tail(s) == Tail(rest)
  {
    assert rest != "" ==> rest[|rest| - 1] == s[|s| - 1];
  }

  lemma LetterCollapses(s: string, rest: string, c: string)
    requires s != "" && IsAlnum(s[0]) && rest == s[1..] && c == [s[0]]
    ensures Collapse(s) == c + Collapse(rest)
  {
  }

  lemma LetterSpelled(s: string, rest: string, c: string)
    requires s != "" && IsAlnum(s[0]) && rest == s[1..] && c == [s[0]]
    ensures Spelled(s, true, false) == c + Spelled(rest, true, false)
  {
    assert "" + c == c;
  }

  lemma LetterSpells(s: string, rest: string)
    requires s != "" && IsAlnum(s[0]) && rest == s[1..]
    requires Collapse(rest) == Spelled(rest, true, false) + Tail(rest)
    ensures Collapse(s) == Spelled(s, true, false) + Tail(s)
  {
    SameTail(s, rest);
    LetterCollapses(s, rest, [s[0]]);
    LetterSpelled(s, rest, [s[0]]);
    OneMore([s[0]], Collapse(rest), Spelled(rest, true, false), Tail(rest));
  }

  lemma OthersSpell(s: string, rest: string)
    requires s != "" && !IsAlnum(s[0]) && rest == DropOthers(s)
    requires Collapse(rest) == Spelled(rest, true, false) + Tail(rest)
    ensures Collapse(s) == Spelled(s, true, false) + Tail(s)
  {
    SpelledDropsOthers(s, true, false);
    if rest == "" {
      OthersOnly(s);
    } else {
      assert rest[|rest| - 1] == s[|s| - 1];
      GapSpells(rest);
      OneMore("-", Collapse(rest), Spelled(rest, true, false), Tail(rest));
    }
  }

  /** Collapsing spells the text, and ends in a hyphen where the text ends in something else. */
  lemma {:induction false} CollapseSpells(s: string)
    ensures Collapse(s) == Spelled(s, true, false) + Tail(s)
    decreases |s|
  {
    if s != "" {
      if IsAlnum(s[0]) {
        CollapseSpells(s[1..]);
        LetterSpells(s, s[1..]);
      } else {
        CollapseSpells(DropOthers(s));
        OthersSpell(s, DropOthers(s));
      }
    }
  }

  lemma GapSpells(s: string)
    requires s != "" && IsAlnum(s[0])
    ensures Spelled(s, true, true) == "-" + Spelled(s, true, false)
    ensures Spelled(s, false, true) == Spelled(s, true, false) == Spelled(s, false, false)
  {
  }

  lemma {:induction false} DropsOthersOnly(s: string)
    ensures forall k :: 0 <= k < |s| - |DropOthers(s)| ==> !IsAlnum(s[k])
  {
    if s != "" && !IsAlnum(s[0]) {
      DropsOthersOnly(s[1..]);
      assert forall k :: 1 <= k < |s| ==> s[k] == s[1..][k - 1];
    }
  }

  /** At the start of a slug the gap in front does not show. */
  lemma SpelledFromStart(s: string)
    ensures Spelled(s, false, true) == Spelled(s, false, false)
    ensures Spelled(s, true, false) == Spelled(s, false, false)
      || (Spelled(s, false, false) != "" && Spelled(s, true, false) == "-" + Spelled(s, false, false))
  {
    if s != "" && !IsAlnum(s[0]) {
      var rest := DropOthers(s);
      SpelledDropsOthers(s, true, false);
      SpelledDropsOthers(s, false, false);
      SpelledDropsOthers(s, false, true);
      if rest != "" {
        GapSpells(rest);
      }
    }
  }

  lemma {:induction false} OthersSpellNothing(s: string, begun: bool, gap: bool)
    requires forall k :: 0 <= k < |s| ==> !IsAlnum(s[k])
    ensures Spelled(s, begun, gap) == ""
  {
    if s != "" {
      OthersSpellNothing(s[1..], begun, true);
    }
  }

  lemma {:induction false} SpelledIgnoresEnd(a: string, b: string, begun: bool, gap: bool)
    requires forall k :: 0 <= k < |b| ==> !IsAlnum(b[k])
    ensures Spelled(a + b, begun, gap) == Spelled(a, begun, gap)
  {
    if a == "" {
      assert a + b == b;
      OthersSpellNothing(b, begun, gap);
    } else {
      assert (a + b)[1..] == a[1..] + b;
      SpelledIgnoresEnd(a[1..], b, if IsAlnum(a[0]) then true else begun, !IsAlnum(a[0]));
    }
  }

  lemma {:induction false} SpelledIgnoresStart(s: string, n: nat)
    requires n <= |s| && forall k :: 0 <= k < n ==> !IsAlnum(s[k])
    ensures Spelled(s, false, false) == Spelled(s[n..], false, false)
    decreases n
  {
    if n > 0 {
      SpelledFromStart(s[1..]);
      SpelledIgnoresStart(s[1..], n - 1);
      assert s[1..][n - 1..] == s[n..];
    } else {
      assert s[0..] == s;
    }
  }

  lemma StripSpellsAlike(s: string, t: string, front: nat)
    requires Between(s, t, front)
    ensures Spelled(s, false, false) == Spelled(t, false, false)
  {
    SpelledIgnoresStart(s, front);
    assert s[front..] == t + s[front + |t|..];
    SpelledIgnoresEnd(t, s[front + |t|..], false, false);
  }

  lemma LTrimOnce(s: string, rest: string)
    requires s != "" && s[0] == '-' && rest == s[1..]
    ensures LTrim(s) == LTrim(rest)
  {
  }

  lemma LTrimKeeps(s: string)
    requires s != "" ==> s[0] != '-'
    ensures LTrim(s) == s
  {
  }

  lemma LTrimsTo(lead: string, rest: string)
    requires (lead == "" || lead == "-") && (rest != "" ==> rest[0] != '-')
    ensures LTrim(lead + rest) == rest
  {
    LTrimKeeps(rest);
    if lead == "-" {
      LTrimOnce(lead + rest, rest);
    } else {
      assert lead + rest == rest;
    }
  }

  lemma RTrimsTo(rest: string, tail: string)
    requires (tail == "" || tail == "-") && (rest != "" ==> rest[|rest| - 1] != '-')
    ensures RTrim(rest + tail) == rest
  {
    if tail == "-" {
      assert (rest + tail)[..|rest|] == rest;
    } else {
      assert rest + tail == rest;
    }
  }

  lemma TrimsTo(lead: string, word: string, tail: string)
    requires (lead == "" || lead == "-") && (tail == "" || tail == "-")
    requires word != "" ==> IsAlnum(word[0]) && IsAlnum(word[|word| - 1])
    requires word == "" ==> lead == ""
    ensures RTrim(LTrim(lead + word + tail)) == word
  {
    if word == "" {
      assert lead + word + tail == tail;
    } else {
      Regroup(lead, word, tail);
      LTrimsTo(lead, word + tail);
      RTrimsTo(word, tail);
    }
  }

  lemma StrippedSpells(s: string)
    ensures Spelled(Strip(s), false, false) == Spelled(s, false, false)
  {
    var front := StripIsBetween(s);
    StripSpellsAlike(s, Strip(s), front);
  }

  lemma PiecesTrim(c: string, spelled: string, word: string, tail: string)
    requires c == spelled + tail && (tail == "" || tail == "-")
    requires spelled == word || (word != "" && spelled == "-" + word)
    requires word != "" ==> IsAlnum(word[0]) && IsAlnum(word[|word| - 1])
    ensures RTrim(LTrim(c)) == word
  {
    var lead := if spelled == word then "" else "-";
    assert spelled == lead + word;
    TrimsTo(lead, word, tail);
  }

  lemma TrimmedSpells(t: string)
    ensures RTrim(LTrim(Collapse(t))) == Spelled(t, false, false)
  {
    var word := Spelled(t, false, false);
    CollapseSpells(t);
    SpelledFromStart(t);
    SpelledEnds(t, false, false);
    PiecesTrim(Collapse(t), Spelled(t, true, false), word, Tail(t));
  }

  /**
    Which slug a name gets: collapsing, stripping and trimming amount to the one pass over the
    lower-cased name, and a name that spells nothing is called agent.
  */
  lemma SlugifySpells(lower: string -> string, text: string)
    ensures var word := Spelled(lower(text), false, false);
      Slugify(lower, text) == if word == "" then "agent" else word
  {
    StrippedSpells(lower(text));
    TrimmedSpells(Strip(lower(text)));
  }

  /** So every letter and digit of the lower-cased name is in its slug, in order. */
  lemma SlugifyKeepsLetters(lower: string -> string, text: string)
    ensures Letters(lower(text)) != "" ==> Letters(Slugify(lower, text)) == Letters(lower(text))
    ensures Letters(lower(text)) == "" ==> Slugify(lower, text) == "agent"
  {
    SlugifySpells(lower, text);
    SpelledKeepsLetters(lower(text), false, false);
    SpelledEnds(lower(text), false, false);
    HasLetters(Spelled(lower(text), false, false));
  }

  lemma HasLetters(s: string)
    requires s != "" ==> IsAlnum(s[0])
    ensures Letters(s) == "" <==> s == ""
  {
  }

  lemma {:induction false} CollapseKeeps(s: string)
    requires SlugChars(s) && NoDoubleHyphen(s)
    requires s != "" ==> s[|s| - 1] != '-'
    ensures Collapse(s) == s
    decreases |s|
  {
    if s != "" {
      SlicesKeepShape(s, 1, |s|);
      assert s[1..|s|] == s[1..];
      CollapseKeeps(s[1..]);
      assert s == [s[0]] + s[1..];
      if !IsAlnum(s[0]) {
        assert s[0] == '-' && s[1] != '-';
        assert DropOthers(s) == s[1..];
      }
    }
  }

  lemma SlugOfSlug(lower: string -> string, s: string)
    requires IsSlug(s) && lower(s) == s
    ensures Slugify(lower, s) == s
  {
    SlugNeedsNoStrip(s);
    CollapseKeeps(s);
  }

  /** A slug is its own slug. */
  lemma SlugifyIdempotent(lower: string -> string, text: string)
    requires forall s: string :: IsSlug(s) ==> lower(s) == s
    ensures Slugify(lower, Slugify(lower, text)) == Slugify(lower, text)
  {
    SlugifyShape(lower, text);
    SlugOfSlug(lower, Slugify(lower, text));
  }

  lemma SlugNeedsNoStrip(s: string)
    requires s != "" && IsAlnum(s[0]) && IsAlnum(s[|s| - 1])
    ensures Strip(s) == s && LTrim(s) == s && RTrim(s) == s
  {
    StripKeeps(s);
    TrimKeeps(s);
  }

  lemma TrimKeeps(s: string)
    requires s != "" && s[0] != '-' && s[|s| - 1] != '-'
    ensures LTrim(s) == s && RTrim(s) == s
  {
  }

  // ---- minting an id ------------------------------------------------------------------------------

  function HexDigit(d: nat): (c: char)
    requires d < 16
    ensures c != '-' && (IsDigit(c) || 'a' <= c <= 'f')
  {
    if d < 10 then '0' + d as char else 'a' + (d - 10) as char
  }

  function Hex(n: nat): (s: string)
    ensures s != "" && forall k :: 0 <= k < |s| ==> s[k] != '-'
  {
    if n < 16 then [HexDigit(n)] else Hex(n / 16) + [HexDigit(n % 16)]
  }

  /** The format `02x`. */
  function Hex02(n: nat): (s: string)
    ensures |s| >= 2 && forall k :: 0 <= k < |s| ==> s[k] != '-'
  {
    if n < 16 then "0" + Hex(n) else Hex(n)
  }

  function HexValue(s: string): int {
    if s == "" then 0 else
      var c := s[|s| - 1];
      16 * HexValue(s[..|s| - 1]) + (if IsDigit(c) then (c as int) - ('0' as int) else (c as int) - ('a' as int) + 10)
  }

  lemma {:induction false} HexIsExact(n: nat)
    ensures HexValue(Hex(n)) == n
  {
    if n >= 16 {
      HexIsExact(n / 16);
      assert Hex(n)[..|Hex(n)| - 1] == Hex(n / 16);
    } else {
      assert Hex(n)[..0] == "";
    }
  }

  lemma Hex02IsExact(n: nat)
    ensures HexValue(Hex02(n)) == n
  {
    HexIsExact(n);
    if n < 16 {
      assert Hex02(n)[..1] == "0";
      assert "0"[..0] == "";
    }
  }

  /** The id tried after `n` collisions. */
  function Candidate(base: string, n: nat): string {
    if n == 0 then base else base + "-" + Hex02(n)
  }

  lemma CandidatesDiffer(base: string, m: nat, n: nat)
    requires Candidate(base, m) == Candidate(base, n)
    ensures m == n
  {
    if m > 0 && n > 0 {
      assert Candidate(base, m)[|base| + 1..] == Hex02(m);
      assert Candidate(base, n)[|base| + 1..] == Hex02(n);
    }
    Hex02IsExact(m);
    Hex02IsExact(n);
  }

  ghost predicate TriedBefore(base: string, n: nat, x: string) {
    exists k :: 0 <= k < n && x == Candidate(base, k)
  }

  lemma NotTriedBefore(base: string, n: nat)
    ensures !TriedBefore(base, n, Candidate(base, n))
  {
    if TriedBefore(base, n, Candidate(base, n)) {
      var k :| 0 <= k < n && Candidate(base, n) == Candidate(base, k);
      CandidatesDiffer(base, n, k);
    }
  }

  /** The first `n` candidates are `n` different ids. */
  lemma {:induction false} TakenCandidates(base: string, ids: set<string>, n: nat) returns (taken: set<string>)
    requires forall k :: 0 <= k < n ==> Candidate(base, k) in ids
    ensures taken <= ids && |taken| == n
    ensures forall x :: x in taken ==> TriedBefore(base, n, x)
  {
    taken := {};
    if n > 0 {
      var fewer := TakenCandidates(base, ids, n - 1);
      NotTriedBefore(base, n - 1);
      taken := fewer + {Candidate(base, n - 1)};
      forall x | x in taken
        ensures TriedBefore(base, n, x)
      {
        if x in fewer {
          var k :| 0 <= k < n - 1 && x == Candidate(base, k);
          assert k < n;
        }
      }
    }
  }

  /**
    The probe loop of `register`: it ends within one probe more than there are rows, with an
    id no row holds, the first such candidate.
  */
  method FreeId(ids: set<string>, base: string) returns (id: string, ghost probes: nat)
    ensures id !in ids
    ensures 1 <= probes <= |ids| + 1 && id == Candidate(base, probes - 1)
    ensures forall k :: 0 <= k < probes - 1 ==> Candidate(base, k) in ids
  {
    id := base;
    var suffix := 0;
    while id in ids
      invariant id == Candidate(base, suffix) && suffix <= |ids|
      invariant forall k :: 0 <= k < suffix ==> Candidate(base, k) in ids
      decreases |ids| - suffix
    {
      ghost var taken := TakenCandidates(base, ids, suffix + 1);
      SubsetIsSmaller(taken, ids);
      suffix := suffix + 1;
      id := base + "-" + Hex02(suffix);
    }
    probes := suffix + 1;
  }
}
