/**
  `get_by_slug` of tinyagentos/agent_registry_store.py over ids minted by `register`: the GLOB
  pattern pins a slug to its own ids, except for slugs that extend it by a block of digits.
*/
module SlugLookup {
  import opened Wrappers
  import opened AgentIds

  predicate Digits(s: string, n: nat) {
    |s| == n && forall k :: 0 <= k < n ==> IsDigit(s[k])
  }

  /** Where an id comes from: slug, date, time and the number of collisions. */
  datatype Minted = Minted(slug: string, date: string, time: string, collisions: nat)

  predicate WellMinted(m: Minted) {
    IsSlug(m.slug) && Digits(m.date, 8) && Digits(m.time, 6)
  }

  function BaseId(m: Minted): string {
    m.slug + "-" + m.date + "-" + m.time
  }

  function IdOf(m: Minted): string {
    Candidate(BaseId(m), m.collisions)
  }

  /** The slug check before the pattern is built. */
  predicate Acceptable(slug: string) {
    slug != "" && IsAlnum(slug[0]) && SlugChars(slug)
  }

  /** `{slug}-` eight digits `-` six digits, and anything after that. */
  predicate GlobMatches(slug: string, id: string) {
    var n := |slug|;
    && |id| >= n + 16 && slug <= id
    && id[n] == '-' && (forall k :: n + 1 <= k < n + 9 ==> IsDigit(id[k]))
    && id[n + 9] == '-' && (forall k :: n + 10 <= k < n + 16 ==> IsDigit(id[k]))
  }

  /**
    `slug` extended by a hyphen and eight digits, and then, if there is more, by a hyphen and
    six digits at least.
  */
  predicate ExtendedByBlock(slug: string, other: string) {
    var n := |slug|;
    && |other| >= n + 9 && slug <= other
    && other[n] == '-' && (forall k :: n + 1 <= k < n + 9 ==> IsDigit(other[k]))
    && (|other| == n + 9
        || (|other| >= n + 16 && other[n + 9] == '-' && forall k :: n + 10 <= k < n + 16 ==> IsDigit(other[k])))
  }

  /** The characters of a minted id, position by position. */
  lemma IdShape(m: Minted)
    requires WellMinted(m)
    ensures var id, n := IdOf(m), |m.slug|;
      && |id| >= n + 16 && m.slug <= id
      && id[n] == '-' && (forall k :: n + 1 <= k < n + 9 ==> IsDigit(id[k]))
      && id[n + 9] == '-' && (forall k :: n + 10 <= k < n + 16 ==> IsDigit(id[k]))
      && (|id| > n + 16 ==> id[n + 16] == '-' && forall k :: n + 16 < k < |id| ==> id[k] != '-')
  {
    var id, n := IdOf(m), |m.slug|;
    var base := BaseId(m);
    assert |base| == n + 16 && base[..n] == m.slug;
    assert forall k :: n + 1 <= k < n + 9 ==> base[k] == m.date[k - n - 1];
    assert forall k :: n + 10 <= k < n + 16 ==> base[k] == m.time[k - n - 10];
    assert base <= id && forall k :: 0 <= k < |base| ==> id[k] == base[k];
    assert m.slug <= id by {
      assert id[..n] == base[..n];
    }
    if m.collisions > 0 {
      var hex := Hex02(m.collisions);
      assert forall k :: n + 16 < k < |id| ==> id[k] == hex[k - n - 17];
    }
  }

  lemma LongerSlug(slug: string, m: Minted)
    requires WellMinted(m) && |m.slug| > |slug|
    ensures GlobMatches(slug, IdOf(m)) <==> ExtendedByBlock(slug, m.slug)
  {
    IdShape(m);
    var id, n, t := IdOf(m), |slug|, m.slug;
    assert forall k :: 0 <= k < |t| ==> id[k] == t[k];
    assert slug <= id <==> slug <= t by {
      assert id[..n] == t[..n];
    }
    if GlobMatches(slug, id) {
      assert |t| >= n + 9;
      assert t[|t| - 1] != '-';
      assert |t| == n + 9 || |t| >= n + 16;
    }
    if ExtendedByBlock(slug, t) && |t| == n + 9 {
      assert forall k :: n + 10 <= k < n + 16 ==> IsDigit(id[k]);
    }
  }

  lemma ShorterSlug(slug: string, m: Minted)
    requires WellMinted(m) && |m.slug| < |slug|
    ensures !GlobMatches(slug, IdOf(m))
  {
    IdShape(m);
  }

  /** A row's id is taken for a slug's own exactly when it was minted from it or from such an extension. */
  lemma GlobIsExact(slug: string, m: Minted)
    requires WellMinted(m)
    ensures GlobMatches(slug, IdOf(m)) <==> m.slug == slug || ExtendedByBlock(slug, m.slug)
  {
    if |m.slug| > |slug| {
      LongerSlug(slug, m);
    } else if |m.slug| < |slug| {
      ShorterSlug(slug, m);
    } else {
      IdShape(m);
      assert IdOf(m)[..|slug|] == m.slug;
    }
  }

  // ---- the lookup -----------------------------------------------------------------------------------

  /** Rows in the order of their row ids. */
  datatype Row = Row(minted: Minted, status: string)

  predicate HasStatus(row: Row, status: Option<string>) {
    status.None? || row.status == status.value
  }

  predicate Wanted(row: Row, slug: string, status: Option<string>) {
    GlobMatches(slug, IdOf(row.minted)) && HasStatus(row, status)
  }

  /** The lookup answers row `i`: it is wanted, and no older row is. */
  predicate Answers(rows: seq<Row>, slug: string, status: Option<string>, i: nat) {
    i < |rows| && Wanted(rows[i], slug, status) && forall j :: 0 <= j < i ==> !Wanted(rows[j], slug, status)
  }

  method GetBySlug(rows: seq<Row>, slug: string, status: Option<string>) returns (found: Option<nat>)
    ensures !Acceptable(slug) ==> found.None?
    ensures found.Some? ==> Answers(rows, slug, status, found.value)
    ensures found.None? && Acceptable(slug) ==> forall j :: 0 <= j < |rows| ==> !Wanted(rows[j], slug, status)
    // the status asked for, if any, and no older row of that status whose id the pattern matches
    ensures found.Some? ==> status.None? || rows[found.value].status == status.value
    ensures Acceptable(slug) ==>
      forall j :: 0 <= j < (if found.Some? then found.value else |rows|) && GlobMatches(slug, IdOf(rows[j].minted)) ==>
        status.Some? && rows[j].status != status.value
    ensures slug == "" || (exists k :: 0 <= k < |slug| && !IsAlnum(slug[k]) && slug[k] != '-') ==> found.None?
  {
    if !Acceptable(slug) {
      return None;
    }
    for i := 0 to |rows|
      invariant forall j :: 0 <= j < i ==> !Wanted(rows[j], slug, status)
    {
      if Wanted(rows[i], slug, status) {
        return Some(i);
      }
    }
    return None;
  }

  /** The row was minted from exactly this slug. */
  predicate MintedFrom(row: Row, slug: string, status: Option<string>) {
    row.minted.slug == slug && HasStatus(row, status)
  }

  /** Row `i` is the oldest of the wanted status that was minted from exactly this slug. */
  predicate OldestMinted(rows: seq<Row>, slug: string, status: Option<string>, i: nat) {
    && i < |rows| && MintedFrom(rows[i], slug, status)
    && forall j :: 0 <= j < i ==> !MintedFrom(rows[j], slug, status)
  }

  /** A row of the wanted status whose slug extends the one asked for by a block of digits. */
  predicate Shadows(row: Row, slug: string, status: Option<string>) {
    ExtendedByBlock(slug, row.minted.slug) && HasStatus(row, status)
  }

  /**
    The oldest row minted from exactly the slug asked for is the answer if and only if no older
    row of the wanted status has a slug that extends it by a block of digits.
  */
  lemma LookupIsExact(rows: seq<Row>, slug: string, status: Option<string>, i: nat)
    requires forall j :: 0 <= j < |rows| ==> WellMinted(rows[j].minted)
    requires OldestMinted(rows, slug, status, i)
    ensures Answers(rows, slug, status, i) <==> forall j :: 0 <= j < i ==> !Shadows(rows[j], slug, status)
  {
    forall j | 0 <= j < |rows|
      ensures Wanted(rows[j], slug, status) <==> MintedFrom(rows[j], slug, status) || Shadows(rows[j], slug, status)
    {
      GlobIsExact(slug, rows[j].minted);
    }
  }

  /** Where no row was minted from it, the lookup still answers if some row of the wanted status shadows the slug. */
  lemma NobodyAnswersIff(rows: seq<Row>, slug: string, status: Option<string>)
    requires forall j :: 0 <= j < |rows| ==> WellMinted(rows[j].minted)
    ensures (forall j :: 0 <= j < |rows| ==> !Wanted(rows[j], slug, status))
      <==> forall j :: 0 <= j < |rows| ==> !MintedFrom(rows[j], slug, status) && !Shadows(rows[j], slug, status)
  {
    forall j | 0 <= j < |rows|
      ensures Wanted(rows[j], slug, status) <==> MintedFrom(rows[j], slug, status) || Shadows(rows[j], slug, status)
    {
      GlobIsExact(slug, rows[j].minted);
    }
  }

  /** A slug that came out of a name is always acceptable. */
  lemma SlugsAreAcceptable(lower: string -> string, text: string)
    ensures Acceptable(Slugify(lower, text))
  {
    SlugifyShape(lower, text);
  }

  lemma DatedIsExtended(slug: string, date: string)
    requires IsSlug(slug) && Digits(date, 8)
    ensures ExtendedByBlock(slug, slug + "-" + date)
  {
    var other := slug + "-" + date;
    assert other[..|slug|] == slug;
    assert forall k :: |slug| + 1 <= k < |slug| + 9 ==> other[k] == date[k - |slug| - 1];
  }

  /** The reach of the pattern: an agent named after any slug and a date answers for the slug alone. */
  lemma DatedNameAnswersForShorter(slug: string, date: string, m: Minted)
    requires IsSlug(slug) && Digits(date, 8)
    requires WellMinted(m) && m.slug == slug + "-" + date
    ensures GlobMatches(slug, IdOf(m)) && m.slug != slug
  {
    DatedIsExtended(slug, date);
    GlobIsExact(slug, m);
    assert |m.slug| > |slug|;
  }
}
