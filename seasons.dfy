/** The dashboard's season ordering (`trier_saisons` in Dash.py): seasons
    are sorted by a key parsed from the start of the name, an upper-case
    letter, a number and a lower-case suffix, compared as a Python tuple;
    names that do not parse get a fallback key meant to sort last. */
module Seasons {
  import opened Common
  import opened Sorting

  /** The tuple `(letter, number, suffix)` built by `extract_key`. */
  datatype SeasonKey = SeasonKey(letter: char, num: nat, suffix: string)

  predicate IsUpper(c: char) {
    'A' <= c <= 'Z'
  }

  predicate IsLower(c: char) {
    'a' <= c <= 'z'
  }

  /** `re.match(r"([A-Z])(\d+)([a-z]*)", s)` succeeds: the match is
      anchored at the start and needs a letter followed by a digit. */
  predicate Parses(s: string) {
    |s| >= 2 && IsUpper(s[0]) && IsDigit(s[1])
  }

  /** The fallback key of a name that does not parse. */
  function FallbackKey(s: string): SeasonKey {
    SeasonKey('Z', 999, s)
  }

  /** `extract_key`: the letter, the value of the maximal digit run after
      it, and the maximal lower-case run after the digits; anything that
      follows is ignored. */
  function ExtractKey(s: string): (k: SeasonKey)
    ensures Parses(s) ==> k.letter == s[0] && forall i :: 0 <= i < |k.suffix| ==> IsLower(k.suffix[i])
    ensures !Parses(s) ==> k == FallbackKey(s)
  {
    if Parses(s) then
      var d := RunLength(s[1..], IsDigit);
      var rest := s[1 + d..];
      SeasonKey(s[0], DigitsValue(s[1..1 + d]), rest[..RunLength(rest, IsLower)])
    else
      FallbackKey(s)
  }

  /** The key of a name that reads letter, number, lower-case suffix and
      then a character that is neither a digit nor lower-case (or nothing):
      the number is the value of its digits, and the suffix is that whole
      lower-case run. */
  lemma ExtractKeyParts(c: char, n: nat, w: string, rest: string)
    requires IsUpper(c) && forall i :: 0 <= i < |w| ==> IsLower(w[i])
    requires rest != [] ==> !IsLower(rest[0]) && !IsDigit(rest[0])
    ensures ExtractKey([c] + NatToString(n) + w + rest) == SeasonKey(c, n, w)
  {
    var digits := NatToString(n);
    var s := [c] + digits + w + rest;
    assert s[1..] == digits + (w + rest);
    assert s[1..][..|digits|] == digits;
    assert |digits| < |s[1..]| ==> !IsDigit(s[1..][|digits|]) by {
      if |digits| < |s[1..]| {
        assert s[1..][|digits|] == (w + rest)[0];
      }
    }
    assert RunLength(s[1..], IsDigit) == |digits|;
    assert s[1..1 + |digits|] == digits;
    NatToStringRoundTrip(n);
    var after := s[1 + |digits|..];
    assert after == w + rest;
    assert |w| < |after| ==> !IsLower(after[|w|]) by {
      if |w| < |after| {
        assert after[|w|] == rest[0];
      }
    }
    assert RunLength(after, IsLower) == |w|;
    assert after[..|w|] == w;
  }

  /** The key as one integer sequence, so that Python's tuple comparison
      becomes the sequence ordering of the sort. */
  function KeyCode(k: SeasonKey): seq<int> {
    [k.letter as int, k.num] + Codes(k.suffix)
  }

  /** Python's `<=` on `(letter, number, suffix)` tuples: letters as
      one-character strings, numbers numerically, suffixes as strings. */
  predicate KeyLe(a: SeasonKey, b: SeasonKey) {
    a.letter < b.letter
    || (a.letter == b.letter
        && (a.num < b.num || (a.num == b.num && LexLe(Codes(a.suffix), Codes(b.suffix)))))
  }

  /** Comparing the encoded keys is comparing the tuples. */
  lemma KeyCodeOrder(a: SeasonKey, b: SeasonKey)
    ensures LexLe(KeyCode(a), KeyCode(b)) <==> KeyLe(a, b)
  {
    var ca, cb := KeyCode(a), KeyCode(b);
    assert ca[1..] == [a.num] + Codes(a.suffix) && cb[1..] == [b.num] + Codes(b.suffix);
    assert ca[1..][1..] == Codes(a.suffix) && cb[1..][1..] == Codes(b.suffix);
  }

  function SeasonSortKey(s: string): seq<int> {
    KeyCode(ExtractKey(s))
  }

  lemma SortedByKeyOrder(r: seq<string>)
    requires SortedBy(r, SeasonSortKey)
    ensures forall i, j :: 0 <= i < j < |r| ==> KeyLe(ExtractKey(r[i]), ExtractKey(r[j]))
  {
    forall i, j | 0 <= i < j < |r|
      ensures KeyLe(ExtractKey(r[i]), ExtractKey(r[j]))
    {
      KeyCodeOrder(ExtractKey(r[i]), ExtractKey(r[j]));
    }
  }

  /** `trier_saisons`: the seasons, rearranged, in non-decreasing key
      order. */
  function TrierSaisons(saisons: seq<string>): (r: seq<string>)
    ensures multiset(r) == multiset(saisons)
    ensures forall i, j :: 0 <= i < j < |r| ==> KeyLe(ExtractKey(r[i]), ExtractKey(r[j]))
  {
    SortBySorted(saisons, SeasonSortKey);
    SortedByKeyOrder(SortBy(saisons, SeasonSortKey));
    SortBy(saisons, SeasonSortKey)
  }

  /** The sort is stable: the seasons that share x's key appear in the
      output in their input order. */
  lemma TrierSaisonsStable(saisons: seq<string>, x: string)
    ensures WithKey(TrierSaisons(saisons), SeasonSortKey, SeasonSortKey(x))
         == WithKey(saisons, SeasonSortKey, SeasonSortKey(x))
  {
    SortByStable(saisons, SeasonSortKey, SeasonSortKey(x));
  }

  /** A season whose key is strictly below another's comes first in the
      output. */
  lemma StrictlyBefore(saisons: seq<string>, a: string, b: string, i: int, j: int)
    requires !KeyLe(ExtractKey(b), ExtractKey(a))
    requires 0 <= i < |TrierSaisons(saisons)| && TrierSaisons(saisons)[i] == a
    requires 0 <= j < |TrierSaisons(saisons)| && TrierSaisons(saisons)[j] == b
    ensures i < j
  {
    var r := TrierSaisons(saisons);
    assert !KeyLe(ExtractKey(r[j]), ExtractKey(r[i]));
    LexLeReflexive(Codes(ExtractKey(a).suffix));
    assert KeyLe(ExtractKey(a), ExtractKey(a));
  }

  /** The match is anchored at the start and stops at the first character
      the pattern cannot take: "A1-x" has the key ("A", 1, ""). */
  lemma KeyOfDashedName()
    ensures ExtractKey("A1-x") == SeasonKey('A', 1, "")
  {
    var s := "A1-x";
    assert s[1..] == "1-x" && "1-x"[1..] == "-x";
    assert RunLength("-x", IsDigit) == 0;
    assert RunLength("1-x", IsDigit) == 1;
    assert s[1..2] == "1" && "1"[..0] == "";
    assert DigitsValue("1") == 1;
    assert s[2..] == "-x";
    assert RunLength("-x", IsLower) == 0;
    assert "-x"[..0] == "";
  }

  /** The suffix is the lower-case run only: "A1a" and "A1aX" share the
      key ("A", 1, "a"), so the sort keeps them in input order. */
  lemma KeyOfSuffixedNames()
    ensures ExtractKey("A1a") == ExtractKey("A1aX") == SeasonKey('A', 1, "a")
  {
    var s, t := "A1a", "A1aX";
    assert s[1..] == "1a" && t[1..] == "1aX";
    assert "1a"[1..] == "a" && "1aX"[1..] == "aX";
    assert RunLength("a", IsDigit) == 0 && RunLength("aX", IsDigit) == 0;
    assert RunLength("1a", IsDigit) == 1 && RunLength("1aX", IsDigit) == 1;
    assert s[1..2] == "1" && t[1..2] == "1" && "1"[..0] == "";
    assert DigitsValue("1") == 1;
    assert s[2..] == "a" && t[2..] == "aX";
    assert "a"[1..] == "" && "aX"[1..] == "X" && "X"[1..] == "";
    assert RunLength("X", IsLower) == 0;
    assert RunLength("a", IsLower) == 1 && RunLength("aX", IsLower) == 1;
    assert "a"[..1] == "a" && "aX"[..1] == "a";
  }

  lemma KeysOfA2A10()
    ensures ExtractKey("A2") == SeasonKey('A', 2, "") && ExtractKey("A10") == SeasonKey('A', 10, "")
  {
    assert NatToString(2) == "2";
    assert NatToString(1) == "1" && NatToString(10) == "10";
    ExtractKeyParts('A', 2, "", "");
    ExtractKeyParts('A', 10, "", "");
    assert ['A'] + NatToString(2) + "" + "" == "A2" && ['A'] + NatToString(10) + "" + "" == "A10";
  }

  /** Numbers compare numerically: "A2" sorts before "A10". */
  lemma A2BeforeA10(saisons: seq<string>, i: int, j: int)
    requires 0 <= i < |TrierSaisons(saisons)| && TrierSaisons(saisons)[i] == "A2"
    requires 0 <= j < |TrierSaisons(saisons)| && TrierSaisons(saisons)[j] == "A10"
    ensures i < j
  {
    var a, b := "A2", "A10";
    KeysOfA2A10();
    StrictlyBefore(saisons, a, b, i, j);
  }

  /** A name that does not parse sorts after every parsed season whose
      letter is below 'Z'. */
  lemma FallbackAfterParsed(saisons: seq<string>, a: string, b: string, i: int, j: int)
    requires Parses(a) && a[0] < 'Z' && !Parses(b)
    requires 0 <= i < |TrierSaisons(saisons)| && TrierSaisons(saisons)[i] == a
    requires 0 <= j < |TrierSaisons(saisons)| && TrierSaisons(saisons)[j] == b
    ensures i < j
  {
    StrictlyBefore(saisons, a, b, i, j);
  }
}
