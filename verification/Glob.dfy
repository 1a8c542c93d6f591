/**
  `_glob_match` of scripts/check_doc_gate.py: a glob is compiled to a regular expression,
  which must match the whole path.
*/
module Globs {
  import opened Wrappers

  /** The regular expressions the compiler emits, with the usual meaning. */
  datatype Regex =
    | Char(c: char)
    | NotSlash            // [^/]
    | Dot                 // any character but a newline
    | Star(r: Regex)
    | Opt(r: Regex)
    | Seq(first: Regex, second: Regex)
    | Empty

  ghost predicate Matches(r: Regex, s: string)
    decreases r, |s|
  {
    match r
    case Char(c) => s == [c]
    case NotSlash => |s| == 1 && s[0] != '/'
    case Dot => |s| == 1 && s[0] != '\n'
    case Star(q) => s == "" || exists k :: 0 < k <= |s| && Matches(q, s[..k]) && Matches(r, s[k..])
    case Opt(q) => s == "" || Matches(q, s)
    case Seq(a, b) => exists k :: 0 <= k <= |s| && Matches(a, s[..k]) && Matches(b, s[k..])
    case Empty => s == ""
  }

  function Join(parts: seq<Regex>): Regex {
    if parts == [] then Empty else Seq(parts[0], Join(parts[1..]))
  }

  const IN_SEGMENT := Star(NotSlash)
  const ANYTHING := Star(Dot)
  const OPTIONAL_TAIL := Opt(Seq(Char('/'), Star(Dot)))

  // ---- the declarative relation ------------------------------------------------------------------

  predicate NoSlash(s: string) {
    forall k :: 0 <= k < |s| ==> s[k] != '/'
  }

  predicate NoNewline(s: string) {
    forall k :: 0 <= k < |s| ==> s[k] != '\n'
  }

  /** The pattern starts with a double star. */
  predicate TwoStars(p: string) {
    |p| >= 2 && p[0] == '*' && p[1] == '*'
  }

  /** The pattern is one slash and a double star, and no more. */
  predicate FinalTail(p: string) {
    |p| == 3 && p[0] == '/' && p[1] == '*' && p[2] == '*'
  }

  // `*` stands for text within one segment, `?` for one character of it, `**` for any text;
  // a slash and two stars at the end for nothing or for a slash and any text; all else for itself.
  ghost predicate Glob(p: string, s: string)
    decreases |p|
  {
    if p == "" then s == ""
    else if FinalTail(p) then s == "" || s[0] == '/'
    else if TwoStars(p) then exists k :: 0 <= k <= |s| && Glob(p[2..], s[k..])
    else if p[0] == '*' then exists k :: 0 <= k <= |s| && NoSlash(s[..k]) && Glob(p[1..], s[k..])
    else s != "" && (if p[0] == '?' then s[0] != '/' else s[0] == p[0]) && Glob(p[1..], s[1..])
  }

  // ---- the compiler --------------------------------------------------------------------------------

  /** The parts for a pattern, from left to right. */
  function Parts(p: string): seq<Regex>
    decreases |p|
  {
    if p == "" then []
    else if FinalTail(p) then [OPTIONAL_TAIL]
    else if TwoStars(p) then [ANYTHING] + Parts(p[2..])
    else if p[0] == '*' then [IN_SEGMENT] + Parts(p[1..])
    else if p[0] == '?' then [NotSlash] + Parts(p[1..])
    else [Char(p[0])] + Parts(p[1..])
  }

  /** `parts` is what the loop has when `rest` is left of a pattern that compiles to `whole`. */
  predicate SoFar(parts: seq<Regex>, rest: string, whole: seq<Regex>) {
    if |rest| == 2 && TwoStars(rest) && EndsInSlash(parts) then parts[..|parts| - 1] + [OPTIONAL_TAIL] == whole
    else parts + Parts(rest) == whole
  }

  predicate EndsInSlash(parts: seq<Regex>) {
    parts != [] && parts[|parts| - 1] == Char('/')
  }

  function PartFor(c: char): Regex {
    if c == '*' then IN_SEGMENT else if c == '?' then NotSlash else Char(c)
  }

  lemma OneCharacterStep(parts: seq<Regex>, rest: string, whole: seq<Regex>)
    requires SoFar(parts, rest, whole) && rest != "" && !TwoStars(rest)
    ensures SoFar(parts + [PartFor(rest[0])], rest[1..], whole)
  {
    var r := PartFor(rest[0]);
    if FinalTail(rest) {
      assert (parts + [r])[..|parts|] == parts;
    } else {
      assert !(|rest[1..]| == 2 && TwoStars(rest[1..]) && EndsInSlash(parts + [r]));
      Regroup(parts, [r], Parts(rest[1..]));
    }
  }

  lemma TwoStarsStep(parts: seq<Regex>, rest: string, whole: seq<Regex>)
    requires SoFar(parts, rest, whole) && TwoStars(rest)
    ensures SoFar(if EndsInSlash(parts) && |rest| == 2 then parts[..|parts| - 1] + [OPTIONAL_TAIL] else parts + [ANYTHING],
                  rest[2..], whole)
  {
    if EndsInSlash(parts) && |rest| == 2 {
      assert whole + [] == whole;
    } else {
      assert !EndsInSlash(parts + [ANYTHING]);
      Regroup(parts, [ANYTHING], Parts(rest[2..]));
    }
  }

  /** The index loop. */
  method Compile(pattern: string) returns (parts: seq<Regex>)
    ensures parts == Parts(pattern)
  {
    parts := [];
    var i := 0;
    while i < |pattern|
      invariant 0 <= i <= |pattern|
      invariant SoFar(parts, pattern[i..], Parts(pattern))
    {
      parts, i := Emit(pattern, i, parts, Parts(pattern));
    }
    assert pattern[i..] == "";
  }

  /** At a final double star a slash already emitted is folded into the optional tail. */
  method EmitTwoStars(before: seq<Regex>, final: bool) returns (parts: seq<Regex>)
    ensures parts == if EndsInSlash(before) && final then before[..|before| - 1] + [OPTIONAL_TAIL] else before + [ANYTHING]
  {
    if before != [] && before[|before| - 1] == Char('/') && final {
      parts := before[..|before| - 1] + [OPTIONAL_TAIL];
    } else {
      parts := before + [ANYTHING];
    }
  }

  method EmitCharacter(before: seq<Regex>, c: char) returns (parts: seq<Regex>)
    ensures parts == before + [PartFor(c)]
  {
    if c == '*' {
      parts := before + [IN_SEGMENT];
    } else if c == '?' {
      parts := before + [NotSlash];
    } else {
      parts := before + [Char(c)];
    }
  }

  lemma RestShifts(pattern: string, at: nat)
    requires at < |pattern|
    ensures pattern[at..] != "" && pattern[at..][0] == pattern[at] && pattern[at..][1..] == pattern[at + 1..]
    ensures at + 1 < |pattern| ==> pattern[at..][1] == pattern[at + 1] && pattern[at..][2..] == pattern[at + 2..]
  {
  }

  /** One turn of the loop. */
  method Emit(pattern: string, at: nat, before: seq<Regex>, ghost whole: seq<Regex>)
    returns (parts: seq<Regex>, i: nat)
    requires at < |pattern| && SoFar(before, pattern[at..], whole)
    ensures at < i <= |pattern| && SoFar(parts, pattern[i..], whole)
  {
    RestShifts(pattern, at);
    if pattern[at] == '*' && at + 1 < |pattern| && pattern[at + 1] == '*' {
      TwoStarsStep(before, pattern[at..], whole);
      parts := EmitTwoStars(before, at + 2 == |pattern|);
      i := at + 2;
    } else {
      OneCharacterStep(before, pattern[at..], whole);
      parts := EmitCharacter(before, pattern[at]);
      i := at + 1;
    }
  }

  // ---- the compiler is right --------------------------------------------------------------------------

  lemma {:induction false} AnythingMatches(s: string)
    requires NoNewline(s)
    ensures Matches(ANYTHING, s)
    decreases |s|
  {
    if s != "" {
      AnythingMatches(s[1..]);
      assert Matches(Dot, s[..1]);
    }
  }

  lemma {:induction false} InSegmentMatches(s: string)
    ensures Matches(IN_SEGMENT, s) <==> NoSlash(s)
    decreases |s|
  {
    if s != "" {
      if NoSlash(s) {
        InSegmentMatches(s[1..]);
        assert Matches(NotSlash, s[..1]);
      }
      if Matches(IN_SEGMENT, s) {
        var k :| 0 < k <= |s| && Matches(NotSlash, s[..k]) && Matches(IN_SEGMENT, s[k..]);
        InSegmentMatches(s[k..]);
        assert forall j :: k <= j < |s| ==> s[j] == s[k..][j - k];
      }
    }
  }

  lemma TailMatches(s: string)
    requires NoNewline(s)
    ensures Matches(OPTIONAL_TAIL, s) <==> s == "" || s[0] == '/'
  {
    var tail := Seq(Char('/'), ANYTHING);
    if s != "" && s[0] == '/' {
      AnythingMatches(s[1..]);
      assert Matches(Char('/'), s[..1]) && Matches(ANYTHING, s[1..]);
    }
    if s != "" && Matches(tail, s) {
      var k :| 0 <= k <= |s| && Matches(Char('/'), s[..k]) && Matches(ANYTHING, s[k..]);
      assert s[..k] == "/";
      assert s[0] == s[..k][0];
    }
  }

  /** One part that matches exactly one character. */
  lemma OneCharacter(r: Regex, rest: Regex, s: string)
    requires r.Char? || r.NotSlash?
    ensures Matches(Seq(r, rest), s) <==> s != "" && Matches(r, s[..1]) && Matches(rest, s[1..])
  {
    if Matches(Seq(r, rest), s) {
      var k :| 0 <= k <= |s| && Matches(r, s[..k]) && Matches(rest, s[k..]);
      assert |s[..k]| == 1;
    }
  }

  /** The compiled expression matches a newline-free path exactly when the glob does. */
  lemma {:induction false} CompiledGlob(p: string, s: string)
    requires NoNewline(s)
    ensures Matches(Join(Parts(p)), s) <==> Glob(p, s)
    decreases |p|
  {
    if FinalTail(p) {
      TailPart(s);
    } else if TwoStars(p) {
      assert ([ANYTHING] + Parts(p[2..]))[1..] == Parts(p[2..]);
      forall k | 0 <= k <= |s|
        ensures Matches(ANYTHING, s[..k]) && (Matches(Join(Parts(p[2..])), s[k..]) <==> Glob(p[2..], s[k..]))
      {
        AnythingMatches(s[..k]);
        CompiledGlob(p[2..], s[k..]);
      }
    } else if p != "" && p[0] == '*' {
      assert ([IN_SEGMENT] + Parts(p[1..]))[1..] == Parts(p[1..]);
      forall k | 0 <= k <= |s|
        ensures Matches(IN_SEGMENT, s[..k]) <==> NoSlash(s[..k])
        ensures Matches(Join(Parts(p[1..])), s[k..]) <==> Glob(p[1..], s[k..])
      {
        InSegmentMatches(s[..k]);
        CompiledGlob(p[1..], s[k..]);
      }
    } else if p != "" {
      var r := if p[0] == '?' then NotSlash else Char(p[0]);
      assert ([r] + Parts(p[1..]))[1..] == Parts(p[1..]);
      OneCharacter(r, Join(Parts(p[1..])), s);
      if s != "" {
        CompiledGlob(p[1..], s[1..]);
        assert s[..1] == [s[0]];
      }
    }
  }

  lemma TailPart(s: string)
    requires NoNewline(s)
    ensures Matches(Join([OPTIONAL_TAIL]), s) <==> s == "" || s[0] == '/'
  {
    var tail: seq<Regex> := [OPTIONAL_TAIL];
    var joined := Join(tail);
    assert tail[1..] == [] && Join([]) == Empty;
    assert joined == Seq(tail[0], Join(tail[1..]));
    TailMatches(s);
    if Matches(joined, s) {
      var k :| 0 <= k <= |s| && Matches(OPTIONAL_TAIL, s[..k]) && Matches(Empty, s[k..]);
      assert s[..k] == s;
    }
    if s == "" || s[0] == '/' {
      assert s[..|s|] == s && s[|s|..] == "";
      assert Matches(OPTIONAL_TAIL, s[..|s|]) && Matches(Empty, s[|s|..]);
    }
  }

  // ---- what globs mean for paths ------------------------------------------------------------------------

  function Slashes(s: string): nat {
    if s == "" then 0 else (if s[0] == '/' then 1 else 0) + Slashes(s[1..])
  }

  lemma {:induction false} SlashesConcat(a: string, b: string)
    ensures Slashes(a + b) == Slashes(a) + Slashes(b)
  {
    if a == "" {
      assert a + b == b;
    } else {
      SlashesConcat(a[1..], b);
      assert (a + b)[1..] == a[1..] + b;
    }
  }

  lemma {:induction false} NoSlashNoSlashes(s: string)
    ensures NoSlash(s) <==> Slashes(s) == 0
  {
    if s != "" {
      NoSlashNoSlashes(s[1..]);
      assert NoSlash(s) <==> s[0] != '/' && NoSlash(s[1..]) by {
        assert forall k :: 1 <= k < |s| ==> s[k] == s[1..][k - 1];
      }
    }
  }

  predicate HasTwoStars(p: string) {
    exists k :: 0 <= k < |p| - 1 && p[k] == '*' && p[k + 1] == '*'
  }

  lemma SlashesOfSegment(s: string, k: nat)
    requires k <= |s| && NoSlash(s[..k])
    ensures Slashes(s) == Slashes(s[k..])
  {
    NoSlashNoSlashes(s[..k]);
    SlashesConcat(s[..k], s[k..]);
    assert s == s[..k] + s[k..];
  }

  lemma TailHasNoTwoStars(p: string)
    requires p != "" && !HasTwoStars(p)
    ensures !HasTwoStars(p[1..])
  {
    assert forall k :: 0 <= k < |p[1..]| ==> p[1..][k] == p[k + 1];
  }

  /** Without `**`, a path that matches has exactly the slashes of its pattern. */
  lemma {:induction false} SingleStarStaysInSegment(p: string, s: string)
    requires !HasTwoStars(p) && Glob(p, s)
    ensures Slashes(s) == Slashes(p)
    decreases |p|
  {
    if p != "" {
      TailHasNoTwoStars(p);
      if p[0] == '*' {
        var k :| 0 <= k <= |s| && NoSlash(s[..k]) && Glob(p[1..], s[k..]);
        SingleStarStaysInSegment(p[1..], s[k..]);
        SlashesOfSegment(s, k);
      } else {
        SingleStarStaysInSegment(p[1..], s[1..]);
      }
    }
  }

  /** No wildcard in `a`. */
  predicate Plain(a: string) {
    forall k :: 0 <= k < |a| ==> a[k] != '*' && a[k] != '?'
  }

  /** A pattern without wildcards matches only itself. */
  lemma {:induction false} PlainMatchesItself(a: string, s: string)
    requires Plain(a)
    ensures Glob(a, s) <==> s == a
  {
    if a != "" {
      assert a == [a[0]] + a[1..];
      if s != "" {
        assert s == [s[0]] + s[1..];
        PlainMatchesItself(a[1..], s[1..]);
      }
    }
  }

  // ---- one wildcard between plain texts ------------------------------------------------------------------

  /** Plain text in front of a pattern stands for itself, unless its slash belongs to a final tail. */
  lemma {:induction false} PlainPrefix(a: string, q: string, s: string)
    requires Plain(a) && (q == "**" ==> a == "" || a[|a| - 1] != '/')
    ensures Glob(a + q, s) <==> a <= s && Glob(q, s[|a|..])
    decreases |a|
  {
    var p := a + q;
    if a == "" {
      assert p == q && s[0..] == s;
    } else {
      assert p[0] == a[0] && p[1..] == a[1..] + q;
      NoTailAfterPlain(a, q);
      if s != "" {
        PlainPrefix(a[1..], q, s[1..]);
        assert |s| >= |a| ==> s[1..][|a| - 1..] == s[|a|..];
        assert a <= s <==> a[0] == s[0] && a[1..] <= s[1..];
      }
    }
  }

  lemma NoTailAfterPlain(a: string, q: string)
    requires Plain(a) && a != "" && (q == "**" ==> a[|a| - 1] != '/')
    ensures !FinalTail(a + q) && !TwoStars(a + q) && (a + q)[0] != '*' && (a + q)[0] != '?'
  {
    var p := a + q;
    assert |a| > 1 ==> p[1] == a[1];
    assert |a| == 1 ==> q == p[1..];
  }

  /** The path is `a`, some text and `b`. */
  predicate Framed(a: string, b: string, s: string) {
    |a| + |b| <= |s| && a <= s && s[|s| - |b|..] == b
  }

  function Middle(a: string, b: string, s: string): string
    requires Framed(a, b, s)
  {
    s[|a|..|s| - |b|]
  }

  lemma FramedAt(a: string, b: string, s: string, k: nat)
    requires a <= s && k <= |s| - |a| && s[|a|..][k..] == b
    ensures Framed(a, b, s) && Middle(a, b, s) == s[|a|..][..k]
  {
    assert s[|a|..][k..] == s[|a| + k..];
  }

  lemma FramedSplits(a: string, b: string, s: string)
    requires Framed(a, b, s)
    ensures s[|a|..][|Middle(a, b, s)|..] == b && s[|a|..][..|Middle(a, b, s)|] == Middle(a, b, s)
  {
  }

  /** A star between plain texts stands for any text without a slash, also for none. */
  lemma StarBetween(a: string, b: string, s: string)
    requires Plain(a) && Plain(b)
    ensures Glob(a + ("*" + b), s) <==> Framed(a, b, s) && NoSlash(Middle(a, b, s))
  {
    var q := "*" + b;
    assert q[1..] == b && q[0] == '*' && !TwoStars(q) && !FinalTail(q) && q != "**";
    PlainPrefix(a, q, s);
    if a <= s {
      var t := s[|a|..];
      forall k | 0 <= k <= |t|
        ensures Glob(b, t[k..]) <==> t[k..] == b
      {
        PlainMatchesItself(b, t[k..]);
      }
      if k :| 0 <= k <= |t| && NoSlash(t[..k]) && Glob(b, t[k..]) {
        FramedAt(a, b, s, k);
      }
      if Framed(a, b, s) && NoSlash(Middle(a, b, s)) {
        FramedSplits(a, b, s);
        assert NoSlash(t[..|Middle(a, b, s)|]);
      }
    }
  }

  /** A question mark between plain texts stands for one character that is no slash. */
  lemma QuestionBetween(a: string, b: string, s: string)
    requires Plain(a) && Plain(b)
    ensures Glob(a + ("?" + b), s) <==> Framed(a, b, s) && |s| == |a| + 1 + |b| && s[|a|] != '/'
  {
    var q := "?" + b;
    assert q[1..] == b && q[0] == '?';
    PlainPrefix(a, q, s);
    if a <= s && |a| < |s| {
      var t := s[|a|..];
      assert t[1..] == s[|a| + 1..] && t[0] == s[|a|];
      PlainMatchesItself(b, t[1..]);
      if t[1..] == b {
        FramedAt(a, b, s, 1);
      }
      if Framed(a, b, s) && |s| == |a| + 1 + |b| {
        FramedSplits(a, b, s);
      }
    }
  }

  /** A double star between plain texts stands for any text at all. */
  lemma TwoStarsBetween(a: string, b: string, s: string)
    requires Plain(a) && Plain(b) && (b == "" ==> a == "" || a[|a| - 1] != '/')
    ensures Glob(a + ("**" + b), s) <==> Framed(a, b, s)
  {
    var q := "**" + b;
    assert q[2..] == b && TwoStars(q) && !FinalTail(q);
    PlainPrefix(a, q, s);
    if a <= s {
      var t := s[|a|..];
      forall k | 0 <= k <= |t|
        ensures Glob(b, t[k..]) <==> t[k..] == b
      {
        PlainMatchesItself(b, t[k..]);
      }
      if k :| 0 <= k <= |t| && Glob(b, t[k..]) {
        FramedAt(a, b, s, k);
      }
      if Framed(a, b, s) {
        FramedSplits(a, b, s);
        assert Glob(q[2..], t[|Middle(a, b, s)|..]);
      }
    }
  }

  /** A final slash and double star behind plain text: the text itself, or anything below it. */
  lemma TailBehind(a: string, s: string)
    requires Plain(a)
    ensures Glob(a + "/**", s) <==> s == a || a + "/" <= s
  {
    var q := "/**";
    PlainPrefix(a, q, s);
    assert FinalTail(q);
    if a <= s {
      assert s[|a|..] == "" <==> s == a;
      assert |s| > |a| ==> (s[|a|..][0] == '/' <==> a + "/" <= s);
    }
  }

  // ---- a pattern in front of a slash ---------------------------------------------------------------------

  // What `p` matches when more of a pattern follows: as `Glob`, but a slash and two stars at the
  // end of `p` are no tail, for they are not at the end of the pattern.
  ghost predicate Inner(p: string, s: string)
    decreases |p|
  {
    if p == "" then s == ""
    else if TwoStars(p) then exists k :: 0 <= k <= |s| && Inner(p[2..], s[k..])
    else if p[0] == '*' then exists k :: 0 <= k <= |s| && NoSlash(s[..k]) && Inner(p[1..], s[k..])
    else s != "" && (if p[0] == '?' then s[0] != '/' else s[0] == p[0]) && Inner(p[1..], s[1..])
  }

  /** The path splits into a match of `p` and a match of `r`. */
  ghost predicate Splits(p: string, r: string, s: string) {
    exists k :: 0 <= k <= |s| && Inner(p, s[..k]) && Glob(r, s[k..])
  }

  predicate StartsWithSlash(r: string) {
    r != "" && r[0] == '/'
  }

  predicate EndsInTail(p: string) {
    |p| >= 3 && FinalTail(p[|p| - 3..])
  }

  /** The wildcard at the start of `p` may stand for `x`, and `rest` is what follows it. */
  ghost predicate Wildcard(p: string, rest: string, x: string) {
    if TwoStars(p) then rest == p[2..] else p != "" && p[0] == '*' && rest == p[1..] && NoSlash(x)
  }

  lemma SliceOfSlice(s: string, j: nat, k: nat)
    requires j <= k <= |s|
    ensures s[j..][..k - j] == s[..k][j..] && s[j..][k - j..] == s[k..] && s[..k][..j] == s[..j]
  {
  }

  lemma WildcardGlobs(p: string, rest: string, x: string, j: nat)
    requires j <= |x| && Wildcard(p, rest, x[..j])
    ensures Inner(rest, x[j..]) ==> Inner(p, x)
    ensures Glob(rest, x[j..]) && !FinalTail(p) ==> Glob(p, x)
  {
  }

  lemma GlobHasWildcard(p: string, rest: string, s: string) returns (j: nat)
    requires p != "" && p[0] == '*' && rest == p[if TwoStars(p) then 2 else 1..] && Glob(p, s)
    ensures j <= |s| && Wildcard(p, rest, s[..j]) && Glob(rest, s[j..])
  {
    j :| 0 <= j <= |s| && Wildcard(p, rest, s[..j]) && Glob(rest, s[j..]);
  }

  lemma InnerHasWildcard(p: string, rest: string, s: string) returns (j: nat)
    requires p != "" && p[0] == '*' && rest == p[if TwoStars(p) then 2 else 1..] && Inner(p, s)
    ensures j <= |s| && Wildcard(p, rest, s[..j]) && Inner(rest, s[j..])
  {
    j :| 0 <= j <= |s| && Wildcard(p, rest, s[..j]) && Inner(rest, s[j..]);
  }

  lemma WildcardIn(p: string, rest: string, r: string, s: string, j: nat)
    requires j <= |s| && Wildcard(p, rest, s[..j]) && Splits(rest, r, s[j..])
    ensures Splits(p, r, s)
  {
    var t := s[j..];
    var k :| 0 <= k <= |t| && Inner(rest, t[..k]) && Glob(r, t[k..]);
    SliceOfSlice(s, j, j + k);
    WildcardInAt(p, rest, r, s, j, j + k, s[..j + k]);
  }

  lemma WildcardInAt(p: string, rest: string, r: string, s: string, j: nat, k: nat, x: string)
    requires j <= k <= |s| && x == s[..k] && Wildcard(p, rest, x[..j]) && Inner(rest, x[j..]) && Glob(r, s[k..])
    ensures Splits(p, r, s)
  {
    WildcardGlobs(p, rest, x, j);
  }

  lemma WildcardOut(p: string, rest: string, r: string, s: string) returns (j: nat)
    requires p != "" && p[0] == '*' && rest == p[if TwoStars(p) then 2 else 1..] && Splits(p, r, s)
    ensures j <= |s| && Wildcard(p, rest, s[..j]) && Splits(rest, r, s[j..])
  {
    var k: nat :| k <= |s| && Inner(p, s[..k]) && Glob(r, s[k..]);
    j := InnerHasWildcard(p, rest, s[..k]);
    SliceOfSlice(s, j, k);
  }

  lemma WildcardOfConcat(p: string, r: string)
    requires StartsWithSlash(r) && p != "" && p[0] == '*'
    ensures (p + r)[0] == '*' && TwoStars(p + r) == TwoStars(p)
    ensures (p + r)[if TwoStars(p) then 2 else 1..] == p[if TwoStars(p) then 2 else 1..] + r
  {
  }

  lemma WildcardSplits(p: string, rest: string, r: string, s: string)
    requires StartsWithSlash(r) && p != "" && p[0] == '*' && rest == p[if TwoStars(p) then 2 else 1..]
    requires forall t :: Glob(rest + r, t) <==> Splits(rest, r, t)
    ensures Glob(p + r, s) <==> Splits(p, r, s)
  {
    var pr := p + r;
    WildcardOfConcat(p, r);
    if Glob(pr, s) {
      var j := GlobHasWildcard(pr, rest + r, s);
      WildcardIn(p, rest, r, s, j);
    }
    if Splits(p, r, s) {
      var j := WildcardOut(p, rest, r, s);
      WildcardGlobs(pr, rest + r, s, j);
    }
  }

  lemma CharacterSplits(p: string, r: string, s: string)
    requires StartsWithSlash(r) && p != "" && p[0] != '*'
    requires forall t :: Glob(p[1..] + r, t) <==> Splits(p[1..], r, t)
    ensures Glob(p + r, s) <==> Splits(p, r, s)
  {
    var pr := p + r;
    assert pr[0] == p[0] && pr[1..] == p[1..] + r;
    assert !FinalTail(pr) by {
      assert pr[|p|] == r[0];
    }
    if Glob(pr, s) {
      assert Splits(p[1..], r, s[1..]);
      var k :| 0 <= k <= |s[1..]| && Inner(p[1..], s[1..][..k]) && Glob(r, s[1..][k..]);
      SliceOfSlice(s, 1, k + 1);
      assert Inner(p, s[..k + 1]);
    }
    if Splits(p, r, s) {
      var k :| 0 <= k <= |s| && Inner(p, s[..k]) && Glob(r, s[k..]);
      SliceOfSlice(s, 1, k);
      assert Splits(p[1..], r, s[1..]);
    }
  }

  /** A pattern splits in front of any of its slashes: each half matches its half of the path. */
  lemma {:induction false} PatternSplits(p: string, r: string, s: string)
    requires StartsWithSlash(r)
    ensures Glob(p + r, s) <==> Splits(p, r, s)
    decreases |p|
  {
    if p == "" {
      assert p + r == r && s[0..] == s;
    } else {
      var rest := p[if TwoStars(p) then 2 else 1..];
      forall t ensures Glob(rest + r, t) <==> Splits(rest, r, t) {
        PatternSplits(rest, r, t);
      }
      if p[0] == '*' {
        WildcardSplits(p, rest, r, s);
      } else {
        CharacterSplits(p, r, s);
      }
    }
  }

  lemma InnerIsGlobStep(p: string, rest: string, s: string)
    requires p != "" && !FinalTail(p) && rest == p[if TwoStars(p) then 2 else 1..]
    requires forall t :: Inner(rest, t) <==> Glob(rest, t)
    ensures Inner(p, s) <==> Glob(p, s)
  {
    if p[0] == '*' {
      if Inner(p, s) {
        var j := InnerHasWildcard(p, rest, s);
        WildcardGlobs(p, rest, s, j);
      }
      if Glob(p, s) {
        var j := GlobHasWildcard(p, rest, s);
        WildcardGlobs(p, rest, s, j);
      }
    }
  }

  lemma TailOfRest(p: string, n: nat)
    requires n <= |p|
    ensures EndsInTail(p[n..]) ==> EndsInTail(p)
    ensures FinalTail(p) ==> EndsInTail(p)
  {
    if |p[n..]| >= 3 {
      assert p[n..][|p[n..]| - 3..] == p[|p| - 3..];
    }
    assert p[|p| - |p|..] == p;
  }

  /** Only a tail at its end tells a whole pattern from the same text with more behind it. */
  lemma {:induction false} InnerIsGlob(p: string, s: string)
    requires !EndsInTail(p)
    ensures Inner(p, s) <==> Glob(p, s)
    decreases |p|
  {
    if p != "" {
      var n := if TwoStars(p) then 2 else 1;
      TailOfRest(p, n);
      forall t ensures Inner(p[n..], t) <==> Glob(p[n..], t) {
        InnerIsGlob(p[n..], t);
      }
      InnerIsGlobStep(p, p[n..], s);
    }
  }

  /** For any pattern the inner meaning is that of the pattern with a slash behind it. */
  lemma InnerIsBeforeSlash(p: string, s: string)
    ensures Inner(p, s) <==> Glob(p + "/", s + "/")
  {
    var t := s + "/";
    PatternSplits(p, "/", t);
    assert t[..|s|] == s;
    forall k | 0 <= k <= |t| ensures Glob("/", t[k..]) <==> k == |s| {
      if k <= |s| {
        assert t[k..] == s[k..] + "/";
      }
    }
  }

  // ---- double stars ---------------------------------------------------------------------------------------

  /** `p` matches the path up to its end or up to one of its slashes. */
  ghost predicate UpToSlash(p: string, s: string) {
    exists k :: 0 <= k <= |s| && Inner(p, s[..k]) && (k == |s| || s[k] == '/')
  }

  // A trailing slash and two stars: what `p` matches, and everything below it.
  lemma TrailingDoubleStar(p: string, s: string)
    ensures Glob(p + "/**", s) <==> UpToSlash(p, s)
  {
    var tail := "/**";
    PatternSplits(p, tail, s);
    forall k | 0 <= k <= |s| ensures Glob(tail, s[k..]) <==> k == |s| || s[k] == '/' {
      assert k < |s| ==> s[k..][0] == s[k];
    }
  }

  /** `q` matches what follows some slash. */
  ghost predicate AfterSlash(q: string, s: string) {
    exists j :: 0 <= j < |s| && s[j] == '/' && Glob(q, s[j + 1..])
  }

  // Two stars and a slash at the start: some slash is needed, unless `q` is itself a double star.
  lemma LeadingDoubleStar(q: string, s: string)
    ensures Glob("**/" + q, s) <==> q == "**" || AfterSlash(q, s)
  {
    var p := "**/" + q;
    var slashed := "/" + q;
    assert p[0] == '*' && TwoStars(p) && p[2..] == slashed && slashed[1..] == q;
    assert FinalTail(slashed) <==> q == "**";
    if q == "**" {
      assert Glob(slashed, s[|s|..]);
    } else {
      forall j | 0 <= j <= |s|
        ensures Glob(slashed, s[j..]) <==> j < |s| && s[j] == '/' && Glob(q, s[j + 1..])
      {
        assert j < |s| ==> s[j..][0] == s[j] && s[j..][1..] == s[j + 1..];
      }
    }
  }

  /** `p` matches up to one slash, and `q` after a later one, or anything follows when `q` is `**`. */
  ghost predicate Around(p: string, q: string, s: string) {
    exists i :: 0 <= i < |s| && s[i] == '/' && Inner(p, s[..i]) && (q == "**" || AfterSlash(q, s[i + 1..]))
  }

  /** A double star between two slashes needs both of them in the path. */
  lemma MiddleDoubleStar(p: string, q: string, s: string)
    ensures Glob(p + "/**/" + q, s) <==> Around(p, q, s)
  {
    var leading := "**/" + q;
    var r := "/" + leading;
    assert p + "/**/" + q == p + r;
    PatternSplits(p, r, s);
    assert r[1..] == leading && |r| > 3;
    forall i | 0 <= i <= |s|
      ensures Glob(r, s[i..]) <==> i < |s| && s[i] == '/' && (q == "**" || AfterSlash(q, s[i + 1..]))
    {
      if i < |s| {
        assert s[i..][0] == s[i] && s[i..][1..] == s[i + 1..];
        LeadingDoubleStar(q, s[i + 1..]);
      }
    }
  }

  lemma TailHasTwoStars(p: string)
    requires EndsInTail(p)
    ensures HasTwoStars(p)
  {
    assert p[|p| - 3..][1] == p[|p| - 2] && p[|p| - 3..][2] == p[|p| - 1];
  }

  lemma SlashSplits(s: string, k: nat)
    requires k < |s| && s[k] == '/'
    ensures Slashes(s) == Slashes(s[..k]) + 1 + Slashes(s[k + 1..])
  {
    SlashesConcat(s[..k], s[k..]);
    assert s == s[..k] + s[k..] && s[k..][1..] == s[k + 1..];
  }

  // So `**/q` asks for one more slash than `q` has, `*` being the only star in `q`.
  lemma LeadingNeedsSegment(q: string, s: string)
    requires !HasTwoStars(q) && Glob("**/" + q, s)
    ensures Slashes(s) > Slashes(q)
  {
    LeadingDoubleStar(q, s);
    var j :| 0 <= j < |s| && s[j] == '/' && Glob(q, s[j + 1..]);
    SingleStarStaysInSegment(q, s[j + 1..]);
    SlashSplits(s, j);
  }

  /** And a double star in the middle for one more than the two sides and one slash have. */
  lemma MiddleNeedsSegment(p: string, q: string, s: string)
    requires !HasTwoStars(p) && !HasTwoStars(q) && Glob(p + "/**/" + q, s)
    ensures Slashes(s) > Slashes(p) + 1 + Slashes(q)
  {
    MiddleDoubleStar(p, q, s);
    var i :| 0 <= i < |s| && s[i] == '/' && Inner(p, s[..i]) && (q == "**" || AfterSlash(q, s[i + 1..]));
    if EndsInTail(p) {
      TailHasTwoStars(p);
      assert false;
    }
    InnerIsGlob(p, s[..i]);
    SingleStarStaysInSegment(p, s[..i]);
    LeadingDoubleStar(q, s[i + 1..]);
    LeadingNeedsSegment(q, s[i + 1..]);
    SlashSplits(s, i);
  }

  /** A double star never stands for zero segments: not in the middle and not at the start. */
  lemma DoubleStarIsNotZeroSegments(p: string, q: string, x: string, y: string)
    requires !HasTwoStars(p) && !HasTwoStars(q) && Glob(p, x) && Glob(q, y)
    ensures !Glob(p + "/**/" + q, x + "/" + y)
    ensures !Glob("**/" + q, y)
  {
    SingleStarStaysInSegment(p, x);
    SingleStarStaysInSegment(q, y);
    var s := x + "/" + y;
    assert s[|x|] == '/' && s[..|x|] == x && s[|x| + 1..] == y;
    SlashSplits(s, |x|);
    if Glob(p + "/**/" + q, s) {
      MiddleNeedsSegment(p, q, s);
    }
    if Glob("**/" + q, y) {
      LeadingNeedsSegment(q, y);
    }
  }

  const DIRECTORY := "a"
  const PYTHON_FILES := "*.py"
  const MODULE := "x.py"
  const PYTHON_BELOW := DIRECTORY + "/**/" + PYTHON_FILES

  lemma PythonFile()
    ensures Glob(PYTHON_FILES, MODULE) && !HasTwoStars(PYTHON_FILES)
  {
    PlainMatchesItself(PYTHON_FILES[1..], MODULE[1..]);
    assert !FinalTail(PYTHON_FILES) && !TwoStars(PYTHON_FILES) && NoSlash(MODULE[..1]);
  }

  /** Such as `a/x.py` for the Python files below `a`, and `a` for `a` anywhere. */
  lemma UsualPatterns()
    ensures !Glob(PYTHON_BELOW, DIRECTORY + "/" + MODULE) && !Glob("**/" + DIRECTORY, DIRECTORY)
  {
    PlainMatchesItself(DIRECTORY, DIRECTORY);
    PythonFile();
    DoubleStarIsNotZeroSegments(DIRECTORY, PYTHON_FILES, DIRECTORY, MODULE);
    DoubleStarIsNotZeroSegments(DIRECTORY, DIRECTORY, DIRECTORY, DIRECTORY);
  }
}
