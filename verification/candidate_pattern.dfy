/**
 * The candidate pattern of `parse_candidates` (app.py:53-59), matched at one
 * start offset:
 *
 *   name      [A-Z][a-zA-Z]+\s+[A-Z][a-zA-Z]+   then a line feed
 *   title     .+?                               then a line feed
 *   company   .+?                               then a line feed
 *   location  [A-Za-zÀ-ÖØ-öø-ÿ\s]+
 *   industry  optional: \s*-\s* then [A-Za-zÀ-ÖØ-öø-ÿ\s]+
 *
 * `Accepts` is the language of the pattern: every way of cutting the text
 * into fields that the pattern admits. `MatchAt` is the one cut Python's
 * backtracking matcher reports, computed deterministically; the lemmas at
 * the end show that it is accepted, that it exists whenever any cut does,
 * and that it is the one the greedy and lazy quantifiers prefer.
 */
module CandidatePattern {
  import opened Wrappers
  import opened CharClasses

  /** The half-open range of positions `lo..hi` covered by a group. */
  datatype Span = Span(lo: nat, hi: nat)

  /** A match: the spans of the five named groups; `industry` is `None` when its group did not take part. */
  datatype Hit = Hit(name: Span, title: Span, company: Span, location: Span, industry: Option<Span>)
  {
    /** Where the match starts (`match.start()`). */
    function Start(): nat {
      name.lo
    }

    /** Where the match ends (`match.end()`), which is where `finditer` resumes. */
    function End(): nat {
      if industry.Some? then industry.value.hi else location.hi
    }
  }

  /**
   * The spans lie inside `s` in the pattern's order: each of name, title and
   * company is non-empty and followed by one character (the line feed) before
   * the next group, and the industry, when present, starts after the location.
   */
  predicate Laid(s: string, h: Hit) {
    && h.name.lo < h.name.hi < |s|
    && h.title.lo == h.name.hi + 1 && h.title.lo < h.title.hi < |s|
    && h.company.lo == h.title.hi + 1 && h.company.lo < h.company.hi < |s|
    && h.location.lo == h.company.hi + 1 && h.location.lo < h.location.hi <= |s|
    && (h.industry.Some? ==> h.location.hi < h.industry.value.lo < h.industry.value.hi <= |s|)
  }

  /** The text of a group. */
  function Text(s: string, sp: Span): string
    requires sp.lo <= sp.hi <= |s|
  {
    s[sp.lo..sp.hi]
  }

  /** `[A-Z][a-zA-Z]+\s+[A-Z][a-zA-Z]+`: two capitalised words of two or more letters, whitespace between. */
  ghost predicate IsName(w: string) {
    exists a, b ::
      && 1 < a < b < |w| - 1
      && IsUpper(w[0]) && All(w[1..a], IsLetter)
      && All(w[a..b], IsSpace)
      && IsUpper(w[b]) && All(w[b + 1..], IsLetter)
  }

  /** `.+?` followed by a line feed: a non-empty piece of one line. */
  predicate IsLine(w: string) {
    |w| > 0 && All(w, IsLineChar)
  }

  /** `[A-Za-zÀ-ÖØ-öø-ÿ\s]+` */
  predicate IsPlace(w: string) {
    |w| > 0 && All(w, IsPlaceChar)
  }

  /** `\s*-\s*`: a hyphen with optional whitespace on either side. */
  ghost predicate IsSeparator(w: string) {
    exists d :: 0 <= d < |w| && All(w[..d], IsSpace) && w[d] == '-' && All(w[d + 1..], IsSpace)
  }

  /** The pattern admits `h` as a match of `s` starting at `p`. */
  ghost predicate Accepts(s: string, p: nat, h: Hit) {
    && Laid(s, h)
    && h.Start() == p
    && IsName(Text(s, h.name)) && s[h.name.hi] == '\n'
    && IsLine(Text(s, h.title)) && s[h.title.hi] == '\n'
    && IsLine(Text(s, h.company)) && s[h.company.hi] == '\n'
    && IsPlace(Text(s, h.location))
    && (h.industry.Some? ==>
          && IsSeparator(s[h.location.hi..h.industry.value.lo])
          && IsPlace(Text(s, h.industry.value)))
  }

  /**
   * The optional industry group after a location ending at `q`. The location
   * is a maximal run of its class, which includes whitespace, so `\s*` before
   * the hyphen is empty and the group can only start with a hyphen at `q`.
   * Greedy `\s*` then takes all whitespace after the hyphen; if a class
   * character follows, the industry is the maximal class run from there;
   * otherwise `\s*` gives back one whitespace character, which becomes the
   * whole industry; with no whitespace to give back the group is skipped.
   */
  function IndustryAfter(s: string, q: nat): (r: Option<Span>)
    requires q <= |s|
    ensures r.Some? ==> q < |s| && s[q] == '-' && q < r.value.lo < r.value.hi <= |s|
  {
    if q < |s| && s[q] == '-' then
      var w := RunEnd(s, q + 1, IsSpace);
      if w < |s| && IsPlaceChar(s[w]) then Some(Span(w, RunEnd(s, w, IsPlaceChar)))
      else if q + 1 < w then Some(Span(w - 1, w))
      else None
    else None
  }

  /**
   * The end of the name group at `p` when a line feed follows it. Each letter
   * or whitespace run of the name must be maximal, since the item after it
   * cannot start with a character of its class.
   */
  function NameEnd(s: string, p: nat): (r: Option<nat>)
    ensures r.Some? ==> p + 4 < r.value < |s| && s[r.value] == '\n'
  {
    if p >= |s| || !IsUpper(s[p]) then None
    else
      var first := RunEnd(s, p + 1, IsLetter);
      var gap := RunEnd(s, first, IsSpace);
      if first == p + 1 || gap == first || gap == |s| || !IsUpper(s[gap]) then None
      else
        var last := RunEnd(s, gap + 1, IsLetter);
        if last == gap + 1 || last == |s| || s[last] != '\n' then None
        else Some(last)
  }

  /** The end of a `.+?` group starting at `i`: the next line feed, provided the line is not empty. */
  function LineEnd(s: string, i: nat): (r: Option<nat>)
    requires i <= |s|
    ensures r.Some? ==> i < r.value < |s| && s[r.value] == '\n'
  {
    var e := RunEnd(s, i, IsLineChar);
    if e == i || e == |s| then None else Some(e)
  }

  /**
   * The match Python's matcher reports at offset `p`, if any. The title and
   * the company run to the next line feed, since `.` cannot cross one; the
   * location is maximal, since the optional group after it is tried (and on
   * failure skipped) before the location would give anything back.
   */
  function MatchAt(s: string, p: nat): (r: Option<Hit>)
    ensures r.Some? ==> Laid(s, r.value) && r.value.Start() == p
  {
    match NameEnd(s, p)
    case None => None
    case Some(nameEnd) =>
      match LineEnd(s, nameEnd + 1)
      case None => None
      case Some(titleEnd) =>
        match LineEnd(s, titleEnd + 1)
        case None => None
        case Some(companyEnd) =>
          var placeEnd := RunEnd(s, companyEnd + 1, IsPlaceChar);
          if placeEnd == companyEnd + 1 then None
          else
            Some(Hit(Span(p, nameEnd), Span(nameEnd + 1, titleEnd), Span(titleEnd + 1, companyEnd),
                     Span(companyEnd + 1, placeEnd), IndustryAfter(s, placeEnd)))
  }

  /** A name found by `NameEnd` has the shape of the name group. */
  lemma {:induction false} NameEndSound(s: string, p: nat)
    requires NameEnd(s, p).Some?
    ensures IsName(s[p..NameEnd(s, p).value])
  {
    var first := RunEnd(s, p + 1, IsLetter);
    var gap := RunEnd(s, first, IsSpace);
    var last := NameEnd(s, p).value;
    assert last == RunEnd(s, gap + 1, IsLetter);
    RunEndAll(s, p + 1, IsLetter);
    RunEndAll(s, first, IsSpace);
    RunEndAll(s, gap + 1, IsLetter);
    var w := s[p..last];
    var a, b := first - p, gap - p;
    assert 1 < a < b < |w| - 1;
    AllWithin(s, p, last, 1, a, IsLetter);
    AllWithin(s, p, last, a, b, IsSpace);
    AllWithin(s, p, last, b + 1, |w|, IsLetter);
    assert w[b + 1..] == w[b + 1..|w|];
    assert w[0] == s[p] && w[b] == s[gap];
  }

  /** A line found by `LineEnd` has the shape of a `.+?` group. */
  lemma {:induction false} LineEndSound(s: string, i: nat)
    requires i <= |s| && LineEnd(s, i).Some?
    ensures IsLine(Text(s, Span(i, LineEnd(s, i).value)))
  {
    RunEndSlice(s, i, IsLineChar);
  }

  /** A non-empty maximal run of the location class has the shape of the location group. */
  lemma {:induction false} PlaceRunSound(s: string, i: nat)
    requires i <= |s| && i < RunEnd(s, i, IsPlaceChar)
    ensures IsPlace(Text(s, Span(i, RunEnd(s, i, IsPlaceChar))))
  {
    RunEndSlice(s, i, IsPlaceChar);
  }

  /** An industry found by `IndustryAfter` is a separator followed by a run of the location class. */
  lemma {:induction false} IndustryAfterSound(s: string, q: nat)
    requires q <= |s| && IndustryAfter(s, q).Some?
    ensures var ind := IndustryAfter(s, q).value;
      IsSeparator(s[q..ind.lo]) && IsPlace(s[ind.lo..ind.hi])
  {
    var ind := IndustryAfter(s, q).value;
    RunEndAll(s, q + 1, IsSpace);
    if ind.hi == RunEnd(s, ind.lo, IsPlaceChar) {
      RunEndAll(s, ind.lo, IsPlaceChar);
    }
    AllSlice(s, q + 1, ind.lo, IsSpace);
    AllSlice(s, ind.lo, ind.hi, IsPlaceChar);
    var sep := s[q..ind.lo];
    assert sep[..0] == [];
    assert sep[1..] == s[q + 1..ind.lo];
  }

  /**
   * What `MatchAt` reports is a match of the pattern; its location cannot be
   * extended, and an industry is reported only after a hyphen right at the
   * end of the location.
   */
  lemma {:induction false} MatchAtSound(s: string, p: nat)
    requires MatchAt(s, p).Some?
    ensures Accepts(s, p, MatchAt(s, p).value)
    ensures var h := MatchAt(s, p).value;
      h.location.hi == |s| || !IsPlaceChar(s[h.location.hi])
    ensures var h := MatchAt(s, p).value;
      h.industry.Some? ==> s[h.location.hi] == '-'
  {
    var nameEnd, titleEnd, companyEnd := MatchAtParts(s, p);
    StagesAccepted(s, p, nameEnd, titleEnd, companyEnd);
  }

  /** The match assembled from the ends the stages of `MatchAt` find is admitted by the pattern. */
  lemma {:induction false} StagesAccepted(s: string, p: nat, nameEnd: nat, titleEnd: nat, companyEnd: nat)
    requires NameEnd(s, p) == Some(nameEnd)
    requires LineEnd(s, nameEnd + 1) == Some(titleEnd)
    requires LineEnd(s, titleEnd + 1) == Some(companyEnd)
    requires companyEnd + 1 < RunEnd(s, companyEnd + 1, IsPlaceChar)
    ensures var placeEnd := RunEnd(s, companyEnd + 1, IsPlaceChar);
      && Accepts(s, p, Hit(Span(p, nameEnd), Span(nameEnd + 1, titleEnd), Span(titleEnd + 1, companyEnd),
                           Span(companyEnd + 1, placeEnd), IndustryAfter(s, placeEnd)))
      && (placeEnd == |s| || !IsPlaceChar(s[placeEnd]))
      && (IndustryAfter(s, placeEnd).Some? ==> s[placeEnd] == '-')
  {
    var placeEnd := RunEnd(s, companyEnd + 1, IsPlaceChar);
    var h := Hit(Span(p, nameEnd), Span(nameEnd + 1, titleEnd), Span(titleEnd + 1, companyEnd),
                 Span(companyEnd + 1, placeEnd), IndustryAfter(s, placeEnd));
    NameEndSound(s, p);
    LineEndSound(s, nameEnd + 1);
    LineEndSound(s, titleEnd + 1);
    PlaceRunSound(s, companyEnd + 1);
    if h.industry.Some? {
      IndustryAfterSound(s, placeEnd);
    }
  }

  /** The cut points of a name the pattern admits at `p`: the whitespace between the words is `a..b`. */
  lemma {:induction false} NameParts(s: string, p: nat, x: nat) returns (a: nat, b: nat)
    requires p < x <= |s| && IsName(s[p..x])
    ensures p + 1 < a < b < x - 1
    ensures IsUpper(s[p]) && IsUpper(s[b])
    ensures forall k :: p + 1 <= k < a ==> IsLetter(s[k])
    ensures forall k :: a <= k < b ==> IsSpace(s[k])
    ensures forall k :: b + 1 <= k < x ==> IsLetter(s[k])
  {
    var w := s[p..x];
    var i, j :| && 1 < i < j < |w| - 1
                && IsUpper(w[0]) && All(w[1..i], IsLetter)
                && All(w[i..j], IsSpace)
                && IsUpper(w[j]) && All(w[j + 1..], IsLetter);
    a, b := p + i, p + j;
    assert w[j + 1..] == w[j + 1..|w|];
    assert w[0] == s[p] && w[j] == s[b];
    AllWithin(s, p, x, 1, i, IsLetter);
    AllWithin(s, p, x, i, j, IsSpace);
    AllWithin(s, p, x, j + 1, |w|, IsLetter);
  }

  /** Any name the pattern admits at `p` is the one `NameEnd` finds. */
  lemma {:induction false} NameEndComplete(s: string, p: nat, x: nat)
    requires p < x < |s| && IsName(s[p..x]) && s[x] == '\n'
    ensures NameEnd(s, p) == Some(x)
  {
    var a, b := NameParts(s, p, x);
    RunEndIs(s, p + 1, a, IsLetter);
    RunEndIs(s, a, b, IsSpace);
    RunEndIs(s, b + 1, x, IsLetter);
  }

  /** Any `.+?` group the pattern admits from `i` is the one `LineEnd` finds. */
  lemma {:induction false} LineEndComplete(s: string, i: nat, e: nat)
    requires i < e < |s| && IsLine(s[i..e]) && s[e] == '\n'
    ensures LineEnd(s, i) == Some(e)
  {
    AllSlice(s, i, e, IsLineChar);
    RunEndIs(s, i, e, IsLineChar);
  }

  /**
   * After a location that cannot be extended, any industry the pattern admits
   * means `IndustryAfter` finds one too, starting no earlier and ending no
   * earlier: greedy `\s*` and greedy `+`.
   */
  lemma {:induction false} IndustryAfterComplete(s: string, q: nat, ind: Span)
    requires q < ind.lo < ind.hi <= |s|
    requires q == |s| || !IsPlaceChar(s[q])
    requires IsSeparator(s[q..ind.lo]) && IsPlace(s[ind.lo..ind.hi])
    ensures IndustryAfter(s, q).Some?
    ensures ind.lo <= IndustryAfter(s, q).value.lo && ind.hi <= IndustryAfter(s, q).value.hi
  {
    var sep := s[q..ind.lo];
    var d :| 0 <= d < |sep| && All(sep[..d], IsSpace) && sep[d] == '-' && All(sep[d + 1..], IsSpace);
    assert d == 0;
    assert sep[1..] == s[q + 1..ind.lo];
    AllSlice(s, q + 1, ind.lo, IsSpace);
    AllSlice(s, ind.lo, ind.hi, IsPlaceChar);
    var w := RunEnd(s, q + 1, IsSpace);
    RunEndCovers(s, q + 1, ind.lo, IsSpace);
    if w < |s| && IsPlaceChar(s[w]) {
      if w < ind.hi {
        RunEndCovers(s, w, ind.hi, IsPlaceChar);
      }
    }
  }

  /**
   * Whenever the pattern admits any match at `p`, `MatchAt` reports one: it
   * has the same name, title and company (those groups admit one cut only)
   * and a location at least as long.
   */
  lemma {:induction false} MatchAtComplete(s: string, p: nat, other: Hit)
    requires Accepts(s, p, other)
    ensures MatchAt(s, p).Some?
    ensures var h := MatchAt(s, p).value;
      && h.name == other.name && h.title == other.title && h.company == other.company
      && h.location.lo == other.location.lo && other.location.hi <= h.location.hi
  {
    var name, title, company, location := other.name, other.title, other.company, other.location;
    NameEndComplete(s, p, name.hi);
    assert NameEnd(s, p) == Some(name.hi);
    LineEndComplete(s, title.lo, title.hi);
    assert LineEnd(s, name.hi + 1) == Some(title.hi);
    LineEndComplete(s, company.lo, company.hi);
    assert LineEnd(s, title.hi + 1) == Some(company.hi);
    AllSlice(s, location.lo, location.hi, IsPlaceChar);
    RunEndCovers(s, location.lo, location.hi, IsPlaceChar);
    MatchAtStages(s, p, name.hi, title.hi, company.hi);
  }

  /** The ends the stages of `MatchAt` find, for a match it reports. */
  lemma {:induction false} MatchAtParts(s: string, p: nat) returns (nameEnd: nat, titleEnd: nat, companyEnd: nat)
    requires MatchAt(s, p).Some?
    ensures NameEnd(s, p) == Some(nameEnd)
    ensures LineEnd(s, nameEnd + 1) == Some(titleEnd)
    ensures LineEnd(s, titleEnd + 1) == Some(companyEnd)
    ensures var placeEnd := RunEnd(s, companyEnd + 1, IsPlaceChar);
      MatchAt(s, p) == Some(Hit(Span(p, nameEnd), Span(nameEnd + 1, titleEnd), Span(titleEnd + 1, companyEnd),
                                Span(companyEnd + 1, placeEnd), IndustryAfter(s, placeEnd)))
  {
    nameEnd := NameEnd(s, p).value;
    titleEnd := LineEnd(s, nameEnd + 1).value;
    companyEnd := LineEnd(s, titleEnd + 1).value;
  }

  /** `MatchAt` assembled from the ends its stages find. */
  lemma {:induction false} MatchAtStages(s: string, p: nat, nameEnd: nat, titleEnd: nat, companyEnd: nat)
    requires NameEnd(s, p) == Some(nameEnd)
    requires LineEnd(s, nameEnd + 1) == Some(titleEnd)
    requires LineEnd(s, titleEnd + 1) == Some(companyEnd)
    requires companyEnd + 1 < RunEnd(s, companyEnd + 1, IsPlaceChar)
    ensures var placeEnd := RunEnd(s, companyEnd + 1, IsPlaceChar);
      MatchAt(s, p) == Some(Hit(Span(p, nameEnd), Span(nameEnd + 1, titleEnd), Span(titleEnd + 1, companyEnd),
                                Span(companyEnd + 1, placeEnd), IndustryAfter(s, placeEnd)))
  {
  }

  /**
   * Among the matches the pattern admits at `p` with the location `MatchAt`
   * reports, `MatchAt` has an industry whenever any of them has one, and its
   * industry starts and ends no earlier than theirs.
   */
  lemma {:induction false} MatchAtIndustryPreferred(s: string, p: nat, other: Hit)
    requires Accepts(s, p, other) && MatchAt(s, p).Some?
    requires other.location == MatchAt(s, p).value.location
    requires other.industry.Some?
    ensures MatchAt(s, p).value.industry.Some?
    ensures var h := MatchAt(s, p).value;
      && other.industry.value.lo <= h.industry.value.lo
      && other.industry.value.hi <= h.industry.value.hi
  {
    var h := MatchAt(s, p).value;
    MatchAtSound(s, p);
    IndustryAfterComplete(s, h.location.hi, other.industry.value);
  }
}
