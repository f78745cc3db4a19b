/** The story editor's slug pipeline: `generateSlug` turns a title into a
    URL-safe base slug, and `ensureUniqueSlug` probes storage for `base`,
    `base-1`, ..., `base-99` and falls back to a timestamp suffix. */
module Slug {
  import opened Text
  import opened Common

  /** How many candidates `ensureUniqueSlug` probes at most. */
  const MaxProbes: nat := 100

  /** The error code storage reports when `.single()` finds no row. */
  const NotFoundCode: string := "PGRST116"

  // ---------------------------------------------------------------------
  // generateSlug

  predicate IsHyphen(c: char) { c == '-' }

  /** The characters `/[^\w\s-]/g` leaves in place. */
  predicate Kept(c: char) { IsWordChar(c) || IsSpace(c) || c == '-' }

  /** The characters a slug is made of: [a-z0-9_-]. */
  predicate IsSlugChar(c: char) { IsLower(c) || IsDigit(c) || c == '_' || c == '-' }

  /** No two characters in a row both satisfy `p`. */
  predicate NoAdjacent(s: string, p: char -> bool)
  {
    forall i, j :: 0 <= i < |s| && 0 <= j < |s| && j == i + 1 ==> !(p(s[i]) && p(s[j]))
  }

  predicate NoDoubleHyphen(s: string)
  {
    NoAdjacent(s, IsHyphen)
  }

  /** A non-empty slug over [a-z0-9_-] that neither starts nor ends with a
      hyphen and has no two hyphens in a row. */
  predicate WellFormed(s: string)
  {
    && s != []
    && (forall i :: 0 <= i < |s| ==> IsSlugChar(s[i]))
    && s[0] != '-' && s[|s| - 1] != '-'
    && NoDoubleHyphen(s)
  }

  /** `.replace(/[^\w\s-]/g, '')`. */
  function RemoveSpecial(s: string): string
  {
    if s == [] then []
    else (if Kept(s[0]) then [s[0]] else []) + RemoveSpecial(s[1..])
  }

  /** What `RemoveSpecial` keeps is all [\w\s-], and comes from the input. */
  lemma {:induction false} RemoveSpecialSpec(s: string)
    ensures forall c :: c in RemoveSpecial(s) ==> Kept(c) && c in s
  {
    if s != [] {
      RemoveSpecialSpec(s[1..]);
      assert forall c :: c in s[1..] ==> c in s;
      assert RemoveSpecial(s) == (if Kept(s[0]) then [s[0]] else []) + RemoveSpecial(s[1..]);
    }
  }

  /** `.replace(/p+/g, sub)`: every maximal run of characters satisfying `p`
      becomes the single character `sub`. */
  function ReplaceRuns(s: string, p: char -> bool, sub: char): string
    decreases |s|
  {
    if s == [] then []
    else if p(s[0]) then [sub] + ReplaceRuns(DropRun(s, p), p, sub)
    else [s[0]] + ReplaceRuns(s[1..], p, sub)
  }

  /** `.replace(/p+/g, sub)` as a regular-expression engine runs it, left to
      right: a `p` character opens a match and writes `sub` unless a match
      is already open, and any other character is copied and closes it. */
  function Scan(s: string, p: char -> bool, sub: char, inRun: bool): string
  {
    if s == [] then []
    else if p(s[0]) then (if inRun then [] else [sub]) + Scan(s[1..], p, sub, true)
    else [s[0]] + Scan(s[1..], p, sub, false)
  }

  /** Inside an open match the scan writes nothing until the run ends. */
  lemma {:induction false} ScanInRun(s: string, p: char -> bool, sub: char)
    ensures Scan(s, p, sub, true) == Scan(DropRun(s, p), p, sub, false)
  {
    if s != [] && p(s[0]) {
      ScanInRun(s[1..], p, sub);
    }
  }

  /** Replacing whole runs at once is the left-to-right scan. */
  lemma {:induction false} ReplaceRunsScan(s: string, p: char -> bool, sub: char)
    ensures ReplaceRuns(s, p, sub) == Scan(s, p, sub, false)
    decreases |s|
  {
    if s != [] {
      if p(s[0]) {
        ScanInRun(s[1..], p, sub);
        assert DropRun(s, p) == DropRun(s[1..], p);
        ReplaceRunsScan(DropRun(s, p), p, sub);
      } else {
        ReplaceRunsScan(s[1..], p, sub);
      }
    }
  }

  /** Every character of the result is `sub` or a non-`p` character of the
      input, and the result starts where the input does. */
  lemma {:induction false} ReplaceRunsSpec(s: string, p: char -> bool, sub: char)
    ensures var r := ReplaceRuns(s, p, sub);
            && (forall c :: c in r ==> c == sub || (c in s && !p(c)))
            && (s != [] ==> r != [] && r[0] == (if p(s[0]) then sub else s[0]))
    decreases |s|
  {
    if s != [] {
      if p(s[0]) {
        DropRunSpec(s, p);
        var t := DropRun(s, p);
        ReplaceRunsSpec(t, p, sub);
        assert forall c :: c in t ==> c in s;
      } else {
        ReplaceRunsSpec(s[1..], p, sub);
      }
    }
  }

  /** `.replace(/^-+|-+$/g, '')`. */
  function StripHyphens(s: string): (r: string)
  {
    DropRunEnd(DropRun(s, IsHyphen), IsHyphen)
  }

  /** `.toLowerCase().trim().replace(/[^\w\s-]/g, '').replace(/\s+/g, '-')` */
  function Dashed(title: string): string
  {
    ReplaceRuns(RemoveSpecial(Trim(ToLower(title))), IsSpace, '-')
  }

  /** ... `.replace(/-+/g, '-')` */
  function Collapsed(title: string): string
  {
    ReplaceRuns(Dashed(title), IsHyphen, '-')
  }

  /** The whole chain of replacements `generateSlug` applies to a title,
      ending with `.replace(/^-+|-+$/g, '')`. */
  function Clean(title: string): string
  {
    StripHyphens(Collapsed(title))
  }

  /** `story-<now>`, the fallback slug. */
  function Fallback(now: nat): string
  {
    "story-" + Decimal(now)
  }

  /** `generateSlug(title)`, with `Date.now()` given as `now`. */
  function GenerateSlug(title: string, now: nat): string
  {
    var slug := Clean(title);
    if slug == [] then Fallback(now) else slug
  }

  // --- what the cleaning stages guarantee

  /** Replacing runs of `p` by a `sub` that itself satisfies `p` leaves no two
      `p`-characters in a row. */
  lemma {:induction false} ReplaceRunsNoAdjacent(s: string, p: char -> bool, sub: char)
    requires p(sub)
    ensures NoAdjacent(ReplaceRuns(s, p, sub), p)
    decreases |s|
  {
    if s != [] {
      var r := ReplaceRuns(s, p, sub);
      var rest := if p(s[0]) then DropRun(s, p) else s[1..];
      ReplaceRunsNoAdjacent(rest, p, sub);
      assert r == [r[0]] + ReplaceRuns(rest, p, sub);
      if p(s[0]) && rest != [] {
        DropRunSpec(s, p);
        ReplaceRunsSpec(rest, p, sub);
        assert !p(ReplaceRuns(rest, p, sub)[0]);
      }
    }
  }

  lemma SliceKeeps(s: string, a: nat, b: nat)
    requires a <= b <= |s|
    requires forall i :: 0 <= i < |s| ==> IsSlugChar(s[i])
    requires NoDoubleHyphen(s)
    ensures forall i :: 0 <= i < b - a ==> IsSlugChar(s[a..b][i])
    ensures NoDoubleHyphen(s[a..b])
  {
    assert forall i :: 0 <= i < b - a ==> s[a..b][i] == s[a + i];
    assert forall i, j :: 0 <= i < b - a && 0 <= j < b - a && j == i + 1 ==>
      s[a..b][i] == s[a + i] && s[a..b][j] == s[a + j];
  }

  lemma NoUpperAfterTrim(title: string)
    ensures forall c :: c in Trim(ToLower(title)) ==> !IsUpper(c)
  {
    var lowered := ToLower(title);
    TrimSpec(lowered);
    var a, b :| 0 <= a <= b <= |lowered| && Trim(lowered) == lowered[a..b];
    assert forall i :: 0 <= i < b - a ==> lowered[a..b][i] == lowered[a + i];
  }

  lemma DashedChars(title: string)
    ensures forall c :: c in Dashed(title) ==> IsSlugChar(c)
  {
    var trimmed := Trim(ToLower(title));
    NoUpperAfterTrim(title);
    RemoveSpecialSpec(trimmed);
    var kept := RemoveSpecial(trimmed);
    assert forall c :: c in kept ==> Kept(c) && !IsUpper(c);
    ReplaceRunsSpec(kept, IsSpace, '-');
  }

  lemma CollapsedShape(title: string)
    ensures forall i :: 0 <= i < |Collapsed(title)| ==> IsSlugChar(Collapsed(title)[i])
    ensures NoDoubleHyphen(Collapsed(title))
  {
    DashedChars(title);
    ReplaceRunsSpec(Dashed(title), IsHyphen, '-');
    var collapsed := Collapsed(title);
    assert forall c :: c in collapsed ==> IsSlugChar(c);
    ReplaceRunsNoAdjacent(Dashed(title), IsHyphen, '-');
  }

  lemma StripShape(s: string)
    requires forall i :: 0 <= i < |s| ==> IsSlugChar(s[i])
    requires NoDoubleHyphen(s)
    requires StripHyphens(s) != []
    ensures WellFormed(StripHyphens(s))
  {
    var front := DropRun(s, IsHyphen);
    DropRunSpec(s, IsHyphen);
    var r := DropRunEnd(front, IsHyphen);
    DropRunEndSpec(front, IsHyphen);
    var a := |s| - |front|;
    assert r == s[a..a + |r|] by {
      assert front == s[a..];
      assert r == front[..|r|];
    }
    SliceKeeps(s, a, a + |r|);
    assert r[0] == front[0];
    assert !IsHyphen(r[|r| - 1]);
  }

  /** Whenever the cleaning leaves something, it is a well-formed slug. */
  lemma CleanWellFormed(title: string)
    requires Clean(title) != []
    ensures WellFormed(Clean(title))
  {
    CollapsedShape(title);
    StripShape(Collapsed(title));
  }

  lemma FallbackWellFormed(now: nat)
    ensures WellFormed(Fallback(now))
  {
    var d := Decimal(now);
    var s := Fallback(now);
    assert forall i :: 6 <= i < |s| ==> s[i] == d[i - 6];
  }

  /** `generateSlug` always returns a well-formed, non-empty slug, on the
      fallback path as well. */
  lemma GenerateSlugWellFormed(title: string, now: nat)
    ensures WellFormed(GenerateSlug(title, now))
  {
    if Clean(title) == [] {
      FallbackWellFormed(now);
    } else {
      CleanWellFormed(title);
    }
  }

  lemma GenerateSlugNonEmpty(title: string, now: nat)
    ensures GenerateSlug(title, now) != []
  {
    GenerateSlugWellFormed(title, now);
  }

  /** When the cleaning leaves nothing, the result is "story-" followed by
      the decimal timestamp, which the digits give back. */
  lemma GenerateSlugFallback(title: string, now: nat)
    requires Clean(title) == []
    ensures var r := GenerateSlug(title, now);
            |r| > 6 && r[..6] == "story-" && AllDigits(r[6..]) && DecimalValue(r[6..]) == now
  {
    var r := GenerateSlug(title, now);
    assert r[6..] == Decimal(now);
    DecimalRoundTrip(now);
  }

  // --- idempotence: each stage leaves a well-formed slug alone

  lemma {:induction false} RemoveSpecialIdentity(s: string)
    requires forall i :: 0 <= i < |s| ==> Kept(s[i])
    ensures RemoveSpecial(s) == s
  {
    if s != [] {
      RemoveSpecialIdentity(s[1..]);
    }
  }

  lemma {:induction false} ReplaceRunsAbsent(s: string, p: char -> bool, sub: char)
    requires forall i :: 0 <= i < |s| ==> !p(s[i])
    ensures ReplaceRuns(s, p, sub) == s
  {
    if s != [] {
      ReplaceRunsAbsent(s[1..], p, sub);
    }
  }

  lemma {:induction false} CollapseIdentity(s: string)
    requires NoDoubleHyphen(s)
    ensures ReplaceRuns(s, IsHyphen, '-') == s
  {
    if s != [] {
      assert NoDoubleHyphen(s[1..]) by {
        assert forall i, j :: 0 <= i < |s| - 1 && 0 <= j < |s| - 1 && j == i + 1 ==>
          s[1..][i] == s[i + 1] && s[1..][j] == s[j + 1];
      }
      CollapseIdentity(s[1..]);
      if s[0] == '-' {
        assert DropRun(s, IsHyphen) == s[1..] by {
          assert |s| > 1 ==> s[1] != '-';
          assert DropRun(s[1..], IsHyphen) == s[1..];
        }
      }
    }
  }

  lemma TrimIdentity(s: string)
    requires WellFormed(s)
    ensures Trim(ToLower(s)) == s
  {
    ToLowerIdentity(s);
    assert DropRun(s, IsSpace) == s;
    assert DropRunEnd(s, IsSpace) == s;
  }

  lemma DashedIdentity(s: string)
    requires WellFormed(s)
    ensures Dashed(s) == s
  {
    TrimIdentity(s);
    RemoveSpecialIdentity(s);
    ReplaceRunsAbsent(s, IsSpace, '-');
  }

  lemma CleanIdentity(s: string)
    requires WellFormed(s)
    ensures Clean(s) == s
  {
    DashedIdentity(s);
    CollapseIdentity(s);
    assert Collapsed(s) == s;
    assert DropRun(s, IsHyphen) == s;
    assert DropRunEnd(s, IsHyphen) == s;
  }

  /** Slugging a generated slug changes nothing. */
  lemma GenerateSlugIdempotent(title: string, now: nat, later: nat)
    ensures GenerateSlug(GenerateSlug(title, now), later) == GenerateSlug(title, now)
  {
    GenerateSlugWellFormed(title, now);
    CleanIdentity(GenerateSlug(title, now));
  }

  // --- the worked example

  lemma {:induction false} RemoveSpecialAppend(u: string, t: string)
    ensures RemoveSpecial(u + t) == RemoveSpecial(u) + RemoveSpecial(t)
  {
    if u != [] {
      assert (u + t)[1..] == u[1..] + t;
      RemoveSpecialAppend(u[1..], t);
    } else {
      assert u + t == t;
    }
  }

  /** `RemoveSpecial` is a character-by-character filter: in any position a
      character survives exactly when it is one of [\w\s-], and the text on
      either side is filtered independently. */
  lemma RemoveSpecialAt(u: string, c: char, t: string)
    ensures RemoveSpecial(u + [c] + t)
            == RemoveSpecial(u) + (if Kept(c) then [c] else []) + RemoveSpecial(t)
  {
    RemoveSpecialAppend(u + [c], t);
    RemoveSpecialAppend(u, [c]);
    assert RemoveSpecial([c]) == (if Kept(c) then [c] else []) + RemoveSpecial([]);
  }

  /** Each kept character occurs as often as in the input, each removed one
      not at all. */
  lemma {:induction false} RemoveSpecialCount(s: string)
    ensures forall c :: multiset(RemoveSpecial(s))[c] == if Kept(c) then multiset(s)[c] else 0
  {
    if s != [] {
      RemoveSpecialCount(s[1..]);
      assert s == [s[0]] + s[1..];
      assert RemoveSpecial(s) == (if Kept(s[0]) then [s[0]] else []) + RemoveSpecial(s[1..]);
    }
  }

  /** A word, one separator and the rest: the separator becomes `sub`. */
  lemma {:induction false} ReplaceRunsJoin(u: string, c: char, t: string, p: char -> bool, sub: char)
    requires forall i :: 0 <= i < |u| ==> !p(u[i])
    requires p(c)
    requires t == [] || !p(t[0])
    ensures ReplaceRuns(u + [c] + t, p, sub) == u + [sub] + ReplaceRuns(t, p, sub)
  {
    var s := u + [c] + t;
    if u == [] {
      assert s == [c] + t;
      assert DropRun(s, p) == DropRun(t, p) == t;
    } else {
      assert s[1..] == u[1..] + [c] + t;
      ReplaceRunsJoin(u[1..], c, t, p, sub);
    }
  }

  lemma ExampleRemoveSpecial(w1: string, w2: string)
    requires forall i :: 0 <= i < |w1| ==> Kept(w1[i])
    requires forall i :: 0 <= i < |w2| ==> Kept(w2[i])
    ensures RemoveSpecial(w1 + "'" + w2 + "!") == w1 + w2
  {
    var q, e := "'", "!";
    assert RemoveSpecial(q) == [] by { assert !Kept(q[0]) && q[1..] == []; }
    assert RemoveSpecial(e) == [] by { assert !Kept(e[0]) && e[1..] == []; }
    RemoveSpecialIdentity(w1);
    RemoveSpecialIdentity(w2);
    var a := w1 + q;
    RemoveSpecialAppend(w1, q);
    assert RemoveSpecial(a) == w1;
    var b := a + w2;
    RemoveSpecialAppend(a, w2);
    RemoveSpecialAppend(b, e);
    assert RemoveSpecial(b + e) == w1 + w2;
  }

  lemma ExampleDashed(w1: string, w2: string, w3: string)
    requires forall i :: 0 <= i < |w1| ==> !IsSpace(w1[i])
    requires forall i :: 0 <= i < |w2| ==> !IsSpace(w2[i])
    requires forall i :: 0 <= i < |w3| ==> !IsSpace(w3[i])
    requires w2 != []
    ensures ReplaceRuns(w1 + [' '] + (w2 + [' '] + w3), IsSpace, '-') == w1 + ['-'] + (w2 + ['-'] + w3)
  {
    ReplaceRunsAbsent(w3, IsSpace, '-');
    ReplaceRunsJoin(w2, ' ', w3, IsSpace, '-');
    assert ReplaceRuns(w2 + [' '] + w3, IsSpace, '-') == w2 + ['-'] + w3;
    assert (w2 + [' '] + w3)[0] == w2[0];
    ReplaceRunsJoin(w1, ' ', w2 + [' '] + w3, IsSpace, '-');
  }

  lemma ExampleLowered()
    ensures ToLower("A Ghost's Tale!") == "a ghost's tale!"
  {
  }

  lemma ExampleTrimmed()
    ensures Trim(ToLower("A Ghost's Tale!")) == "a ghost's tale!"
  {
    ExampleLowered();
    var t := "a ghost's tale!";
    assert DropRun(t, IsSpace) == t by { assert !IsSpace(t[0]); }
    assert DropRunEnd(t, IsSpace) == t by { assert !IsSpace(t[|t| - 1]); }
  }

  lemma ExampleCleaned()
    ensures RemoveSpecial("a ghost's tale!") == "a ghosts tale"
  {
    ExampleRemoveSpecial("a ghost", "s tale");
    assert "a ghost" + "'" + "s tale" + "!" == "a ghost's tale!";
    assert "a ghost" + "s tale" == "a ghosts tale";
  }

  lemma ExampleSpaced()
    ensures ReplaceRuns("a ghosts tale", IsSpace, '-') == "a-ghosts-tale"
  {
    var w1, w2, w3 := "a", "ghosts", "tale";
    assert "a ghosts tale" == w1 + [' '] + (w2 + [' '] + w3);
    assert "a-ghosts-tale" == w1 + ['-'] + (w2 + ['-'] + w3);
    assert forall i :: 0 <= i < |w2| ==> !IsSpace(w2[i]) by {
      assert forall i :: 0 <= i < |w2| ==> IsLower(w2[i]);
    }
    assert forall i :: 0 <= i < |w3| ==> !IsSpace(w3[i]) by {
      assert forall i :: 0 <= i < |w3| ==> IsLower(w3[i]);
    }
    ExampleDashed(w1, w2, w3);
  }

  lemma ExampleFinished()
    ensures StripHyphens(ReplaceRuns("a-ghosts-tale", IsHyphen, '-')) == "a-ghosts-tale"
  {
    var w1, w2, w3 := "a", "ghosts", "tale";
    assert "a-ghosts-tale" == w1 + ['-'] + (w2 + ['-'] + w3);
    ReplaceRunsAbsent(w3, IsHyphen, '-');
    ReplaceRunsJoin(w2, '-', w3, IsHyphen, '-');
    ReplaceRunsJoin(w1, '-', w2 + ['-'] + w3, IsHyphen, '-');
    assert ReplaceRuns("a-ghosts-tale", IsHyphen, '-') == "a-ghosts-tale";
    assert DropRun("a-ghosts-tale", IsHyphen) == "a-ghosts-tale";
    assert DropRunEnd("a-ghosts-tale", IsHyphen) == "a-ghosts-tale";
  }

  /** The title used as the worked example: "A Ghost's Tale!" becomes
      "a-ghosts-tale". */
  lemma GenerateSlugExample(now: nat)
    ensures GenerateSlug("A Ghost's Tale!", now) == "a-ghosts-tale"
  {
    ExampleTrimmed();
    ExampleCleaned();
    ExampleSpaced();
    ExampleFinished();
  }

  // ---------------------------------------------------------------------
  // ensureUniqueSlug

  /** One exact-match lookup `select('slug').eq('slug', c).single()`: it
      either answers with an error code (if any) and whether a row came back,
      or the call throws. */
  datatype Lookup = Answered(code: Option<string>, hasData: bool) | Threw

  /** `error?.code === 'PGRST116' || !data`: the lookup says the slug is free. */
  predicate ReportsFree(l: Lookup)
    requires l.Answered?
  {
    l.code == Some(NotFoundCode) || !l.hasData
  }

  /** The lookup answered, and the slug is taken. */
  predicate ReportsTaken(l: Lookup)
  {
    l.Answered? && !ReportsFree(l)
  }

  /** The `counter`-th candidate: `slug` itself, then `slug-1`, `slug-2`, ... */
  function Candidate(slug: string, counter: nat): string
  {
    if counter == 0 then slug else slug + "-" + Decimal(counter)
  }

  /** The base, or `story-<now>` in place of an empty base. */
  function StartSlug(baseSlug: string, now: nat): string
  {
    if baseSlug == [] then Fallback(now) else baseSlug
  }

  /** `slug-<now>`, taken as unique without checking. */
  function Stamped(slug: string, now: nat): string
  {
    slug + "-" + Decimal(now)
  }

  /** The remaining search from candidate `counter` on. */
  function SearchFrom(lookup: string -> Lookup, slug: string, now: nat, counter: nat): string
    requires counter <= MaxProbes
    decreases MaxProbes - counter
  {
    if counter == MaxProbes then Stamped(slug, now)
    else
      var l := lookup(Candidate(slug, counter));
      if l.Threw? then Stamped(slug, now)
      else if ReportsFree(l) then Candidate(slug, counter)
      else SearchFrom(lookup, slug, now, counter + 1)
  }

  /** What `ensureUniqueSlug(supabase, baseSlug)` returns. */
  function UniqueSlug(lookup: string -> Lookup, baseSlug: string, now: nat): string
  {
    SearchFrom(lookup, StartSlug(baseSlug, now), now, 0)
  }

  /** Every candidate before `k` is reported taken. */
  predicate TakenBelow(lookup: string -> Lookup, slug: string, k: nat)
  {
    forall j :: 0 <= j < k ==> ReportsTaken(lookup(Candidate(slug, j)))
  }

  /** Candidates reported taken are skipped. */
  lemma {:induction false} SearchSkipsTaken(lookup: string -> Lookup, slug: string, now: nat, i: nat, k: nat)
    requires i <= k <= MaxProbes
    requires TakenBelow(lookup, slug, k)
    ensures SearchFrom(lookup, slug, now, i) == SearchFrom(lookup, slug, now, k)
    decreases k - i
  {
    if i < k {
      SearchSkipsTaken(lookup, slug, now, i + 1, k);
    }
  }

  /** If every candidate before `k` is taken, the search stops at `k`: the
      `k`-th candidate when it is reported free, `slug-<now>` (the unsuffixed
      start slug plus the timestamp) when its lookup throws. */
  lemma UniqueSlugFirstFree(lookup: string -> Lookup, baseSlug: string, now: nat, k: nat)
    requires k < MaxProbes
    requires TakenBelow(lookup, StartSlug(baseSlug, now), k)
    ensures var s := StartSlug(baseSlug, now);
            var l := lookup(Candidate(s, k));
            && (l.Answered? && ReportsFree(l) ==> UniqueSlug(lookup, baseSlug, now) == Candidate(s, k))
            && (l.Threw? ==> UniqueSlug(lookup, baseSlug, now) == Stamped(s, now))
  {
    SearchSkipsTaken(lookup, StartSlug(baseSlug, now), now, 0, k);
  }

  /** When all 100 candidates are taken, the result is `slug-<now>`. */
  lemma UniqueSlugExhausted(lookup: string -> Lookup, baseSlug: string, now: nat)
    requires TakenBelow(lookup, StartSlug(baseSlug, now), MaxProbes)
    ensures UniqueSlug(lookup, baseSlug, now) == Stamped(StartSlug(baseSlug, now), now)
  {
    SearchSkipsTaken(lookup, StartSlug(baseSlug, now), now, 0, MaxProbes);
  }

  /** The result is one of the 100 candidates or the stamped start slug,
      and never empty. */
  lemma {:induction false} SearchFromShape(lookup: string -> Lookup, slug: string, now: nat, counter: nat)
    requires counter <= MaxProbes
    ensures var r := SearchFrom(lookup, slug, now, counter);
            r == Stamped(slug, now) || exists k :: counter <= k < MaxProbes && r == Candidate(slug, k)
    decreases MaxProbes - counter
  {
    if counter < MaxProbes {
      SearchFromShape(lookup, slug, now, counter + 1);
    }
  }

  lemma UniqueSlugNonEmpty(lookup: string -> Lookup, baseSlug: string, now: nat)
    ensures UniqueSlug(lookup, baseSlug, now) != []
  {
    var s := StartSlug(baseSlug, now);
    SearchFromShape(lookup, s, now, 0);
    assert s != [];
  }

  /** With "x" and "x-1" taken and everything else free, the result is "x-2". */
  lemma UniqueSlugExample(now: nat)
    ensures var lookup := (c: string) =>
              if c == "x" || c == "x-1" then Answered(None, true) else Answered(Some(NotFoundCode), false);
            UniqueSlug(lookup, "x", now) == "x-2"
  {
    var lookup := (c: string) =>
      if c == "x" || c == "x-1" then Answered(None, true) else Answered(Some(NotFoundCode), false);
    assert Candidate("x", 1) == "x-1";
    assert Candidate("x", 2) == "x-2";
    assert TakenBelow(lookup, "x", 2);
    UniqueSlugFirstFree(lookup, "x", now, 2);
  }

  /** A lookup that answers without a row counts as "free" whatever error
      code comes with it, not only "not found": a failing query (code "500",
      say) for the base slug makes the base slug the result. */
  lemma UniqueSlugNoRowIsFree(lookup: string -> Lookup, baseSlug: string, now: nat)
    requires baseSlug != []
    requires lookup(baseSlug) == Answered(Some("500"), false)
    ensures UniqueSlug(lookup, baseSlug, now) == baseSlug
  {
    UniqueSlugFirstFree(lookup, baseSlug, now, 0);
  }

  /** With storage throwing on every lookup, the result is the base, a
      hyphen and the timestamp. */
  lemma UniqueSlugAllThrow(lookup: string -> Lookup, baseSlug: string, now: nat)
    requires baseSlug != []
    requires forall c :: lookup(c) == Threw
    ensures UniqueSlug(lookup, baseSlug, now) == baseSlug + "-" + Decimal(now)
  {
  }

  /** A well-formed slug followed by a hyphen and a number is well-formed. */
  lemma SuffixWellFormed(slug: string, n: nat)
    requires WellFormed(slug)
    ensures WellFormed(slug + "-" + Decimal(n))
  {
    var d := Decimal(n);
    var r := slug + "-" + d;
    var k := |slug|;
    assert forall i :: k < i < |r| ==> r[i] == d[i - k - 1];
    assert forall i :: 0 <= i < k ==> r[i] == slug[i];
    forall i, j | 0 <= i < |r| && 0 <= j < |r| && j == i + 1
      ensures !(IsHyphen(r[i]) && IsHyphen(r[j]))
    {
      if j < k {
        assert r[i] == slug[i] && r[j] == slug[j];
      } else if j == k {
        assert r[i] == slug[k - 1];
      } else {
        assert IsDigit(r[j]);
      }
    }
  }

  /** Every candidate and the stamped slug of a well-formed start slug are
      well-formed, so `ensureUniqueSlug` hands back a well-formed slug. */
  lemma UniqueSlugWellFormed(lookup: string -> Lookup, baseSlug: string, now: nat)
    requires baseSlug == [] || WellFormed(baseSlug)
    ensures WellFormed(UniqueSlug(lookup, baseSlug, now))
  {
    var s := StartSlug(baseSlug, now);
    FallbackWellFormed(now);
    SearchFromShape(lookup, s, now, 0);
    var r := UniqueSlug(lookup, baseSlug, now);
    if r == Stamped(s, now) {
      SuffixWellFormed(s, now);
    } else {
      var k :| 0 <= k < MaxProbes && r == Candidate(s, k);
      if k > 0 {
        SuffixWellFormed(s, k);
      }
    }
  }

  /** One step of the search, unfolded. */
  lemma SearchStep(lookup: string -> Lookup, slug: string, now: nat, counter: nat)
    requires counter < MaxProbes
    ensures var l := lookup(Candidate(slug, counter));
            SearchFrom(lookup, slug, now, counter)
              == if l.Threw? then Stamped(slug, now)
                 else if ReportsFree(l) then Candidate(slug, counter)
                 else SearchFrom(lookup, slug, now, counter + 1)
  {
  }

  /** `probed` lists the candidates of `start` in order, from the first. */
  predicate ProbeLog(probed: seq<string>, start: string)
  {
    forall i :: 0 <= i < |probed| ==> probed[i] == Candidate(start, i)
  }

  lemma ProbeLogExtend(probed: seq<string>, start: string)
    requires ProbeLog(probed, start)
    ensures ProbeLog(probed + [Candidate(start, |probed|)], start)
  {
  }

  lemma TakenBelowExtend(lookup: string -> Lookup, start: string, k: nat)
    requires TakenBelow(lookup, start, k)
    requires ReportsTaken(lookup(Candidate(start, k)))
    ensures TakenBelow(lookup, start, k + 1)
  {
  }

  /** `ensureUniqueSlug`: the bounded probing loop. `probed` lists the
      candidates looked up, in order; every one but the last was taken. */
  method EnsureUniqueSlug(lookup: string -> Lookup, baseSlug: string, now: nat)
    returns (result: string, ghost probed: seq<string>)
    ensures result == UniqueSlug(lookup, baseSlug, now)
    ensures 1 <= |probed| <= MaxProbes
    ensures ProbeLog(probed, StartSlug(baseSlug, now))
    ensures TakenBelow(lookup, StartSlug(baseSlug, now), |probed| - 1)
  {
    var slug := baseSlug;
    var counter := 0;
    var isUnique := false;
    if slug == [] {
      slug := Fallback(now);
    }
    ghost var start := slug;
    ghost var answer := UniqueSlug(lookup, baseSlug, now);
    probed := [];
    while !isUnique && counter < MaxProbes
      invariant counter <= MaxProbes
      invariant start == StartSlug(baseSlug, now)
      invariant ProbeLog(probed, start)
      invariant TakenBelow(lookup, start, counter)
      invariant !isUnique ==> slug == start && |probed| == counter
                              && answer == SearchFrom(lookup, start, now, counter)
      invariant isUnique ==> counter < MaxProbes && |probed| == counter + 1 && slug == answer
      decreases MaxProbes - counter, if isUnique then 0 else 1
    {
      var candidate := Candidate(slug, counter);
      ProbeLogExtend(probed, start);
      probed := probed + [candidate];
      SearchStep(lookup, start, now, counter);
      var l := lookup(candidate);
      if l.Threw? {
        result := Stamped(slug, now);
        return;
      }
      if l.code == Some(NotFoundCode) || !l.hasData {
        isUnique := true;
        slug := candidate;
      } else {
        TakenBelowExtend(lookup, start, counter);
        counter := counter + 1;
      }
    }
    if counter >= MaxProbes {
      result := Stamped(slug, now);
      return;
    }
    result := slug;
  }
}
