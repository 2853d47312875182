/**
 * The character classes of the candidate pattern, read as Python's `re`
 * reads them for a `str` pattern compiled without flags, and the maximal
 * run of a class, which is what a greedy `+` or `*` settles on whenever
 * the next item of the pattern cannot start with a character of that class.
 */
module CharClasses {

  /** `[A-Z]`: ASCII only, there is no IGNORECASE flag. */
  predicate IsUpper(c: char) {
    'A' <= c <= 'Z'
  }

  /** `[a-zA-Z]` */
  predicate IsLetter(c: char) {
    'A' <= c <= 'Z' || 'a' <= c <= 'z'
  }

  /**
   * `\s` in a `str` pattern: the characters for which Python's `str.isspace`
   * holds (tab to carriage return, the four information separators, space,
   * NEL, no-break space and the Unicode space separators).
   */
  predicate IsSpace(c: char) {
    || '\t' <= c <= '\r'
    || '\U{1C}' <= c <= '\U{1F}'
    || c == ' '
    || c == '\U{85}'
    || c == '\U{A0}'
    || c == '\U{1680}'
    || '\U{2000}' <= c <= '\U{200A}'
    || c == '\U{2028}'
    || c == '\U{2029}'
    || c == '\U{202F}'
    || c == '\U{205F}'
    || c == '\U{3000}'
  }

  /** `.` without DOTALL: anything but a line feed. */
  predicate IsLineChar(c: char) {
    c != '\n'
  }

  /** `[A-Za-zÀ-ÖØ-öø-ÿ\s]`: ASCII letters, Latin-1 letters (not × and ÷) and whitespace. */
  predicate IsPlaceChar(c: char) {
    || IsLetter(c)
    || '\U{C0}' <= c <= '\U{D6}'
    || '\U{D8}' <= c <= '\U{F6}'
    || '\U{F8}' <= c <= '\U{FF}'
    || IsSpace(c)
  }

  /** Every character of `w` belongs to the class. */
  predicate All(w: string, inClass: char -> bool) {
    forall k :: 0 <= k < |w| ==> inClass(w[k])
  }

  /**
   * The end of the longest run of class characters starting at `i`: the
   * first position at or after `i` that holds no class character.
   */
  function RunEnd(s: string, i: nat, inClass: char -> bool): (e: nat)
    requires i <= |s|
    ensures i <= e <= |s|
    ensures e == |s| || !inClass(s[e])
    decreases |s| - i
  {
    if i < |s| && inClass(s[i]) then RunEnd(s, i + 1, inClass) else i
  }

  /** Every character of the run belongs to the class. */
  lemma {:induction false} RunEndAll(s: string, i: nat, inClass: char -> bool)
    requires i <= |s|
    ensures forall k :: i <= k < RunEnd(s, i, inClass) ==> inClass(s[k])
    decreases |s| - i
  {
    if i < |s| && inClass(s[i]) {
      RunEndAll(s, i + 1, inClass);
    }
  }

  /** The maximal run, read as a string, is all class characters. */
  lemma {:induction false} RunEndSlice(s: string, i: nat, inClass: char -> bool)
    requires i <= |s|
    ensures All(s[i..RunEnd(s, i, inClass)], inClass)
  {
    RunEndAll(s, i, inClass);
    AllSlice(s, i, RunEnd(s, i, inClass), inClass);
  }

  /** A run of class characters from `i` to `j` that cannot be extended is the maximal one. */
  lemma {:induction false} RunEndIs(s: string, i: nat, j: nat, inClass: char -> bool)
    requires i <= j <= |s|
    requires forall k :: i <= k < j ==> inClass(s[k])
    requires j == |s| || !inClass(s[j])
    ensures RunEnd(s, i, inClass) == j
    decreases j - i
  {
    if i < j {
      RunEndIs(s, i + 1, j, inClass);
    }
  }

  /** A class run from `i` to `j` lies inside the maximal run from `i`. */
  lemma {:induction false} RunEndCovers(s: string, i: nat, j: nat, inClass: char -> bool)
    requires i <= j <= |s|
    requires forall k :: i <= k < j ==> inClass(s[k])
    ensures j <= RunEnd(s, i, inClass)
    decreases j - i
  {
    if i < j {
      RunEndCovers(s, i + 1, j, inClass);
    }
  }

  /** `All` over a slice is the class condition over the positions it covers. */
  lemma {:induction false} AllSlice(s: string, i: nat, j: nat, inClass: char -> bool)
    requires i <= j <= |s|
    ensures All(s[i..j], inClass) <==> forall k :: i <= k < j ==> inClass(s[k])
  {
    if All(s[i..j], inClass) {
      forall k | i <= k < j
        ensures inClass(s[k])
      {
        assert s[i..j][k - i] == s[k];
      }
    }
  }

  /** `All` over a slice of the window `s[p..x]` is the class condition at the offsets it covers in `s`. */
  lemma {:induction false} AllWithin(s: string, p: nat, x: nat, i: nat, j: nat, inClass: char -> bool)
    requires p <= x <= |s| && i <= j <= x - p
    ensures All(s[p..x][i..j], inClass) <==> forall k :: p + i <= k < p + j ==> inClass(s[k])
  {
    var w := s[p..x][i..j];
    if All(w, inClass) {
      forall k | p + i <= k < p + j
        ensures inClass(s[k])
      {
        assert w[k - p - i] == s[k];
      }
    }
    if forall k :: p + i <= k < p + j ==> inClass(s[k]) {
      forall k | 0 <= k < |w|
        ensures inClass(w[k])
      {
        assert w[k] == s[p + i + k];
      }
    }
  }
}
