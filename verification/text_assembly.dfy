/**
 * The text side of `extract_text_from_pdf` (app.py:43-48): the OCR text of
 * each page followed by a line feed, in page order, and then every
 * occurrence of "Mostra tutto" removed with `str.replace`. The OCR of each
 * page is given as its text.
 */
module TextAssembly {
  import opened CharClasses

  /** The label removed from the OCR text. */
  const MARKER: string := "Mostra tutto"

  /** The text the page loop builds: each page followed by a line feed, in page order. */
  function JoinPages(pages: seq<string>): (text: string)
    ensures text == [] <==> pages == []
    ensures text != [] ==> text[|text| - 1] == '\n'
  {
    if pages == [] then "" else JoinPages(pages[..|pages| - 1]) + pages[|pages| - 1] + "\n"
  }

  /**
   * `s.replace(needle, "")` for a non-empty needle: scanning left to right,
   * an occurrence of the needle is dropped and the scan resumes after it;
   * any other character is kept. Occurrences therefore never overlap.
   */
  function RemoveAll(s: string, needle: string): (r: string)
    requires needle != []
    ensures |r| <= |s|
    decreases |s|
  {
    if s == [] then []
    else if needle <= s then RemoveAll(s[|needle|..], needle)
    else [s[0]] + RemoveAll(s[1..], needle)
  }

  /** `s.replace("Mostra tutto", "")` (app.py:48). */
  function StripMarker(s: string): (r: string)
    ensures |r| <= |s|
  {
    RemoveAll(s, MARKER)
  }

  /** The needle occurs somewhere in `s`. */
  ghost predicate Contains(s: string, needle: string) {
    exists i :: 0 <= i <= |s| && needle <= s[i..]
  }

  /** The number of line feeds in `s`. */
  function NewlineCount(s: string): nat {
    if s == [] then 0 else (if s[0] == '\n' then 1 else 0) + NewlineCount(s[1..])
  }

  /** The number of line feeds over all pages. */
  function PagesNewlineCount(pages: seq<string>): nat {
    if pages == [] then 0 else PagesNewlineCount(pages[..|pages| - 1]) + NewlineCount(pages[|pages| - 1])
  }

  /** Each page with the marker removed. */
  function StripEach(pages: seq<string>): (r: seq<string>)
    ensures |r| == |pages|
  {
    seq(|pages|, i requires 0 <= i < |pages| => StripMarker(pages[i]))
  }

  lemma {:induction false} NewlineCountAppend(a: string, b: string)
    ensures NewlineCount(a + b) == NewlineCount(a) + NewlineCount(b)
  {
    if a != [] {
      assert (a + b)[1..] == a[1..] + b;
      NewlineCountAppend(a[1..], b);
    } else {
      assert a + b == b;
    }
  }

  /** The marker is a non-empty label on one line. */
  lemma {:induction false} MarkerOnOneLine()
    ensures MARKER != [] && All(MARKER, IsLineChar)
  {
  }

  lemma {:induction false} NoNewlineCount(w: string)
    requires All(w, IsLineChar)
    ensures NewlineCount(w) == 0
  {
    if w != [] {
      NoNewlineCount(w[1..]);
    }
  }

  /** Past a first character that starts no occurrence, the needle occurs in `s` exactly when it occurs in the rest. */
  lemma {:induction false} ContainsTail(s: string, needle: string)
    requires s != [] && !(needle <= s)
    ensures Contains(s, needle) <==> Contains(s[1..], needle)
  {
    if Contains(s, needle) {
      var i :| 0 <= i <= |s| && needle <= s[i..];
      assert i != 0;
      assert s[1..][i - 1..] == s[i..];
    }
    if Contains(s[1..], needle) {
      var i :| 0 <= i <= |s[1..]| && needle <= s[1..][i..];
      assert s[1..][i..] == s[i + 1..];
    }
  }

  /**
   * `replace` leaves `s` as it is exactly when the needle does not occur in
   * it; when it occurs, the result is strictly shorter.
   */
  lemma {:induction false} RemoveAllChanges(s: string, needle: string)
    requires needle != []
    ensures !Contains(s, needle) ==> RemoveAll(s, needle) == s
    ensures Contains(s, needle) ==> |RemoveAll(s, needle)| < |s|
    decreases |s|
  {
    if s == [] {
      assert !Contains(s, needle) by {
        assert forall i :: 0 <= i <= |s| ==> s[i..] == [];
      }
    } else if needle <= s {
      assert Contains(s, needle) by {
        assert s[0..] == s;
      }
    } else {
      RemoveAllChanges(s[1..], needle);
      ContainsTail(s, needle);
      if !Contains(s, needle) {
        assert [s[0]] + s[1..] == s;
      }
    }
  }

  /** A needle without line feeds: `replace` keeps every line feed. */
  lemma {:induction false} RemoveAllNewlines(s: string, needle: string)
    requires needle != [] && All(needle, IsLineChar)
    ensures NewlineCount(RemoveAll(s, needle)) == NewlineCount(s)
    decreases |s|
  {
    if s != [] {
      if needle <= s {
        var head, rest := s[..|needle|], s[|needle|..];
        RemoveAllNewlines(rest, needle);
        assert s == head + rest;
        NewlineCountAppend(head, rest);
        assert head == needle;
        NoNewlineCount(head);
      } else {
        RemoveAllNewlines(s[1..], needle);
        assert RemoveAll(s, needle) == [s[0]] + RemoveAll(s[1..], needle);
        assert ([s[0]] + RemoveAll(s[1..], needle))[1..] == RemoveAll(s[1..], needle);
      }
    }
  }

  /**
   * An occurrence of a needle without line feeds at the start of `x + y`
   * lies inside `x` when a line feed ends `x` or starts `y`.
   */
  lemma {:induction false} NeedleBeforeNewline(x: string, y: string, needle: string)
    requires All(needle, IsLineChar) && needle <= x + y
    requires (x != [] && x[|x| - 1] == '\n') || (y != [] && y[0] == '\n')
    ensures needle <= x
  {
    var xy := x + y;
    if x != [] && x[|x| - 1] == '\n' {
      assert xy[|x| - 1] == '\n';
    } else {
      assert xy[|x|] == '\n';
    }
    assert |x| >= |needle|;
    assert forall k :: 0 <= k < |needle| ==> x[k] == xy[k];
  }

  /**
   * No occurrence of a needle without line feeds spans a line feed, so
   * `replace` works independently on the text before a line feed and on the
   * text from it on.
   */
  lemma {:induction false} RemoveAllSplitBefore(x: string, y: string, needle: string)
    requires needle != [] && All(needle, IsLineChar)
    requires y != [] && y[0] == '\n'
    ensures RemoveAll(x + y, needle) == RemoveAll(x, needle) + RemoveAll(y, needle)
    decreases |x|
  {
    var xy := x + y;
    if x == [] {
      assert xy == y;
    } else if needle <= xy {
      NeedleBeforeNewline(x, y, needle);
      var rest := x[|needle|..];
      assert xy[|needle|..] == rest + y;
      RemoveAllSplitBefore(rest, y, needle);
    } else {
      assert !(needle <= x);
      var rest := x[1..];
      assert xy[1..] == rest + y;
      RemoveAllSplitBefore(rest, y, needle);
    }
  }

  /** A line feed at the front is kept, and the rest is processed on its own. */
  lemma {:induction false} RemoveAllAfterNewline(y: string, needle: string)
    requires needle != [] && All(needle, IsLineChar)
    ensures RemoveAll("\n" + y, needle) == "\n" + RemoveAll(y, needle)
  {
    var ny := "\n" + y;
    assert ny[0] != needle[0];
    assert ny[1..] == y;
  }

  /**
   * Likewise `replace` works independently on a text up to and including a
   * line feed and on the text after it.
   */
  lemma {:induction false} RemoveAllSplitAfter(x: string, y: string, needle: string)
    requires needle != [] && All(needle, IsLineChar)
    requires x == [] || x[|x| - 1] == '\n'
    ensures RemoveAll(x + y, needle) == RemoveAll(x, needle) + RemoveAll(y, needle)
  {
    if x == [] {
      assert x + y == y;
    } else {
      var w := x[..|x| - 1];
      var ny := "\n" + y;
      calc {
        RemoveAll(x + y, needle);
      == { assert x + y == w + ny; }
        RemoveAll(w + ny, needle);
      == { RemoveAllSplitBefore(w, ny, needle); }
        RemoveAll(w, needle) + RemoveAll(ny, needle);
      == { RemoveAllAfterNewline(y, needle); }
        RemoveAll(w, needle) + ("\n" + RemoveAll(y, needle));
      == { RemoveAllAfterNewline([], needle); assert "\n" + [] == "\n"; }
        (RemoveAll(w, needle) + RemoveAll("\n", needle)) + RemoveAll(y, needle);
      == { RemoveAllSplitBefore(w, "\n", needle); }
        RemoveAll(w + "\n", needle) + RemoveAll(y, needle);
      == { assert x == w + "\n"; }
        RemoveAll(x, needle) + RemoveAll(y, needle);
      }
    }
  }

  /**
   * The assembled text is each page with the marker removed, followed by a
   * line feed, in page order.
   */
  lemma {:induction false} AssembledPerPage(pages: seq<string>)
    ensures StripMarker(JoinPages(pages)) == JoinPages(StripEach(pages))
  {
    if pages != [] {
      var init := pages[..|pages| - 1];
      var last := pages[|pages| - 1];
      AssembledPerPage(init);
      MarkerOnOneLine();
      RemoveAllSplitBefore(JoinPages(init) + last, "\n", MARKER);
      RemoveAllSplitAfter(JoinPages(init), last, MARKER);
      assert StripMarker("\n") == "\n";
      assert StripEach(pages)[..|pages| - 1] == StripEach(init);
    }
  }

  /** The assembled text has one line feed per page more than the pages hold. */
  lemma {:induction false} AssembledNewlines(pages: seq<string>)
    ensures NewlineCount(StripMarker(JoinPages(pages))) == PagesNewlineCount(pages) + |pages|
  {
    MarkerOnOneLine();
    RemoveAllNewlines(JoinPages(pages), MARKER);
    JoinNewlines(pages);
  }

  lemma {:induction false} JoinNewlines(pages: seq<string>)
    ensures NewlineCount(JoinPages(pages)) == PagesNewlineCount(pages) + |pages|
  {
    if pages != [] {
      var init := pages[..|pages| - 1];
      var last := pages[|pages| - 1];
      JoinNewlines(init);
      NewlineCountAppend(JoinPages(init), last);
      NewlineCountAppend(JoinPages(init) + last, "\n");
    }
  }

  /** `extract_text_from_pdf` once the OCR text of every page is known. */
  method AssembleText(pages: seq<string>) returns (text: string)
    ensures text == StripMarker(JoinPages(pages))
  {
    text := "";
    for i := 0 to |pages|
      invariant text == JoinPages(pages[..i])
    {
      text := text + pages[i] + "\n";
      assert pages[..i + 1][..i] == pages[..i];
    }
    assert pages[..|pages|] == pages;
    text := StripMarker(text);
  }
}
