/**
 * `parse_candidates` (app.py:51-62): `finditer` over the whole OCR text,
 * each match turned into its `groupdict()` and appended to the result.
 */
module CandidateParser {
  import opened Wrappers
  import opened CharClasses
  import opened CandidatePattern
  import Columns

  /** The named groups of the pattern. */
  const FIELDS: set<string> := {"name", "title", "company", "location", "industry"}

  /**
   * `match.groupdict()`: every named group of the pattern, with the text it
   * matched, and `None` for a group that took no part.
   */
  function GroupDict(s: string, h: Hit): (d: Columns.Row)
    requires Laid(s, h)
    ensures d.Keys == FIELDS
    ensures forall f :: f in FIELDS && f != "industry" ==> d[f].Some?
    ensures d["industry"].Some? <==> h.industry.Some?
  {
    map[
      "name" := Some(Text(s, h.name)),
      "title" := Some(Text(s, h.title)),
      "company" := Some(Text(s, h.company)),
      "location" := Some(Text(s, h.location)),
      "industry" := if h.industry.Some? then Some(Text(s, h.industry.value)) else None
    ]
  }

  /**
   * A matcher tells, for each offset, the match the pattern reports there.
   * It is anchored when every reported match starts at its own offset and is
   * non-empty; `MatchAt` is one (`MatcherAnchored`).
   */
  ghost predicate Anchored(m: nat -> Option<Hit>) {
    forall q: nat :: m(q).Some? ==> m(q).value.Start() == q < m(q).value.End()
  }

  /** The matcher of the candidate pattern over `s`. */
  function Matcher(s: string): nat -> Option<Hit> {
    (q: nat) => MatchAt(s, q)
  }

  lemma {:induction false} MatcherAnchored(s: string)
    ensures Anchored(Matcher(s))
  {
    forall q: nat | Matcher(s)(q).Some?
      ensures Matcher(s)(q).value.Start() == q < Matcher(s)(q).value.End()
    {
      assert Laid(s, MatchAt(s, q).value);
    }
  }

  /**
   * The search loop of `finditer` over a text of length `n`, from `pos`: the
   * first offset at or after `pos` where the matcher reports a match gives
   * the next match, and the search resumes at its end.
   */
  function Scan(m: nat -> Option<Hit>, n: nat, pos: nat): (hits: seq<Hit>)
    requires Anchored(m)
    ensures forall k :: 0 <= k < |hits| ==> pos <= hits[k].Start() < n && m(hits[k].Start()) == Some(hits[k])
    decreases n - pos
  {
    if pos >= n then []
    else
      match m(pos)
      case None => Scan(m, n, pos + 1)
      case Some(h) => [h] + Scan(m, n, h.End())
  }

  /** `pattern.finditer(s)`: the scan from the start of the text. Every match lies inside the text. */
  function FindIter(s: string): (hits: seq<Hit>)
    ensures forall k :: 0 <= k < |hits| ==> Laid(s, hits[k])
  {
    MatcherAnchored(s);
    var hits := Scan(Matcher(s), |s|, 0);
    assert forall k :: 0 <= k < |hits| ==> MatchAt(s, hits[k].Start()) == Some(hits[k]);
    hits
  }

  /** Every match `finditer` yields is the match the pattern reports at its start. */
  lemma {:induction false} FindIterMatches(s: string)
    ensures forall k :: 0 <= k < |FindIter(s)| ==> MatchAt(s, FindIter(s)[k].Start()) == Some(FindIter(s)[k])
  {
    MatcherAnchored(s);
    assert FindIter(s) == Scan(Matcher(s), |s|, 0);
  }

  /** The matcher reports nothing at any offset in `lo..hi`. */
  ghost predicate NoMatchIn(m: nat -> Option<Hit>, lo: nat, hi: nat) {
    forall q: nat :: lo <= q < hi ==> m(q).None?
  }

  /**
   * `hits` is what a left-to-right search for non-overlapping matches from
   * `pos` in a text of length `n` yields: the first is the match reported at
   * its own start, no match is reported between `pos` and that start, and
   * the rest is such a search from where the first ends; with no match left,
   * none is reported from `pos` to the end of the text.
   */
  ghost predicate LeftmostScan(m: nat -> Option<Hit>, n: nat, pos: nat, hits: seq<Hit>)
    decreases |hits|
  {
    if hits == [] then NoMatchIn(m, pos, n)
    else
      && pos <= hits[0].Start() < n
      && m(hits[0].Start()) == Some(hits[0])
      && NoMatchIn(m, pos, hits[0].Start())
      && LeftmostScan(m, n, hits[0].End(), hits[1..])
  }

  /** `Scan` is a leftmost non-overlapping search. */
  lemma {:induction false} ScanIsLeftmost(m: nat -> Option<Hit>, n: nat, pos: nat)
    requires Anchored(m)
    ensures LeftmostScan(m, n, pos, Scan(m, n, pos))
    decreases n - pos
  {
    if pos < n {
      match m(pos)
      case None =>
        ScanIsLeftmost(m, n, pos + 1);
      case Some(h) =>
        ScanIsLeftmost(m, n, h.End());
        assert ([h] + Scan(m, n, h.End()))[1..] == Scan(m, n, h.End());
    }
  }

  /** A leftmost non-overlapping search from `pos` is unique: it is `Scan`. */
  lemma {:induction false} LeftmostIsScan(m: nat -> Option<Hit>, n: nat, pos: nat, hits: seq<Hit>)
    requires Anchored(m) && LeftmostScan(m, n, pos, hits)
    ensures hits == Scan(m, n, pos)
    decreases n - pos
  {
    if pos < n {
      match m(pos)
      case None =>
        if hits != [] {
          assert hits[0].Start() != pos;
        }
        LeftmostIsScan(m, n, pos + 1, hits);
      case Some(h) =>
        assert hits != [];
        assert hits[0].Start() == pos by {
          assert NoMatchIn(m, pos, hits[0].Start());
        }
        LeftmostIsScan(m, n, h.End(), hits[1..]);
        assert hits == [h] + hits[1..];
    }
  }

  /** Matches found by `Scan` do not overlap and come in increasing order of position. */
  lemma {:induction false} ScanOrdered(m: nat -> Option<Hit>, n: nat, pos: nat, i: nat, j: nat)
    requires Anchored(m) && i < j < |Scan(m, n, pos)|
    ensures Scan(m, n, pos)[i].Start() < Scan(m, n, pos)[i].End() <= Scan(m, n, pos)[j].Start()
    decreases n - pos
  {
    if pos < n {
      match m(pos)
      case None =>
        ScanOrdered(m, n, pos + 1, i, j);
      case Some(h) =>
        var rest := Scan(m, n, h.End());
        assert Scan(m, n, pos) == [h] + rest;
        assert h.Start() == pos < h.End();
        assert Scan(m, n, pos)[j] == rest[j - 1];
        if i > 0 {
          ScanOrdered(m, n, h.End(), i - 1, j - 1);
        }
    }
  }

  /** `finditer` yields exactly the leftmost non-overlapping matches of the pattern in `s`, and nothing else does. */
  lemma {:induction false} FindIterLeftmost(s: string, hits: seq<Hit>)
    ensures LeftmostScan(Matcher(s), |s|, 0, FindIter(s))
    ensures LeftmostScan(Matcher(s), |s|, 0, hits) ==> hits == FindIter(s)
  {
    MatcherAnchored(s);
    ScanIsLeftmost(Matcher(s), |s|, 0);
    if LeftmostScan(Matcher(s), |s|, 0, hits) {
      LeftmostIsScan(Matcher(s), |s|, 0, hits);
    }
  }

  /** The matches `finditer` yields do not overlap, and their start offsets strictly increase. */
  lemma {:induction false} FindIterOrdered(s: string)
    ensures var hits := FindIter(s);
      forall i, j :: 0 <= i < j < |hits| ==> hits[i].Start() < hits[i].End() <= hits[j].Start()
  {
    MatcherAnchored(s);
    var hits := FindIter(s);
    assert hits == Scan(Matcher(s), |s|, 0);
    forall i, j | 0 <= i < j < |hits|
      ensures hits[i].Start() < hits[i].End() <= hits[j].Start()
    {
      ScanOrdered(Matcher(s), |s|, 0, i, j);
    }
  }

  /** The search never fails: it yields nothing exactly when no offset of `s` starts a match. */
  lemma {:induction false} FindIterEmpty(s: string)
    ensures FindIter(s) == [] <==> forall q: nat :: q < |s| ==> MatchAt(s, q).None?
  {
    var hits := FindIter(s);
    if hits == [] {
      FindIterLeftmost(s, []);
      assert NoMatchIn(Matcher(s), 0, |s|);
      forall q: nat | q < |s|
        ensures MatchAt(s, q).None?
      {
        assert Matcher(s)(q).None?;
      }
    } else {
      FindIterMatches(s);
      assert MatchAt(s, hits[0].Start()).Some?;
    }
  }

  /**
   * The record built from a match: every field is the text at its group's
   * position; name, title and company have the shapes of their groups and
   * each is followed by a line feed; the location is a maximal run of its
   * class; the industry, when present, is a run of the same class and comes
   * after a hyphen right at the end of the location.
   */
  lemma {:induction false} RowFields(s: string, h: Hit)
    requires MatchAt(s, h.Start()) == Some(h)
    ensures var d := GroupDict(s, h);
      && d["name"].value == s[h.name.lo..h.name.hi] && IsName(d["name"].value) && s[h.name.hi] == '\n'
      && d["title"].value == s[h.title.lo..h.title.hi] && IsLine(d["title"].value) && s[h.title.hi] == '\n'
      && d["company"].value == s[h.company.lo..h.company.hi] && IsLine(d["company"].value) && s[h.company.hi] == '\n'
      && d["location"].value == s[h.location.lo..h.location.hi] && IsPlace(d["location"].value)
      && (h.location.hi == |s| || !IsPlaceChar(s[h.location.hi]))
      && (d["industry"].Some? ==>
            && s[h.location.hi] == '-'
            && d["industry"].value == s[h.industry.value.lo..h.industry.value.hi]
            && IsPlace(d["industry"].value))
  {
    MatchAtSound(s, h.Start());
  }

  /**
   * Every record `parse_candidates` returns for `s`: the name has its two
   * words and is followed by a line feed; title and company are non-empty
   * lines each followed by a line feed; the location is a maximal non-empty
   * run of its class; an industry, when present, follows a hyphen right at
   * the end of the location and is a non-empty run of the same class.
   */
  lemma {:induction false} ParsedRecordFields(s: string, k: nat)
    requires k < |FindIter(s)|
    ensures var h := FindIter(s)[k];
      var d := GroupDict(s, h);
      && IsName(d["name"].value) && s[h.name.hi] == '\n'
      && IsLine(d["title"].value) && s[h.title.hi] == '\n'
      && IsLine(d["company"].value) && s[h.company.hi] == '\n'
      && IsPlace(d["location"].value) && (h.location.hi == |s| || !IsPlaceChar(s[h.location.hi]))
      && (d["industry"].Some? ==> s[h.location.hi] == '-' && IsPlace(d["industry"].value))
  {
    FindIterMatches(s);
    RowFields(s, FindIter(s)[k]);
  }

  /** `parse_candidates`: one `groupdict()` per match of `finditer`, appended in order. */
  method ParseCandidates(text: string) returns (candidates: seq<Columns.Row>)
    ensures |candidates| == |FindIter(text)|
    ensures forall k :: 0 <= k < |candidates| ==> candidates[k] == GroupDict(text, FindIter(text)[k])
  {
    var matches := FindIter(text);
    candidates := AppendRecords(text, matches);
  }

  /** The append loop of `parse_candidates` over the matches found in `text`. */
  method AppendRecords(text: string, matches: seq<Hit>) returns (candidates: seq<Columns.Row>)
    requires forall k :: 0 <= k < |matches| ==> Laid(text, matches[k])
    ensures |candidates| == |matches|
    ensures forall k :: 0 <= k < |matches| ==> candidates[k] == GroupDict(text, matches[k])
  {
    candidates := [];
    for i := 0 to |matches|
      invariant |candidates| == i
      invariant forall k :: 0 <= k < i ==> candidates[k] == GroupDict(text, matches[k])
    {
      candidates := candidates + [GroupDict(text, matches[i])];
    }
  }
}
