/** The cleaning helpers of nettoyage.py: the fuzzy harmonisation of a
    column's values onto canonical representatives, the extraction of a
    card's set code from its name, and the ordering of a deck's cards
    before it is hashed. */
module Cleaning {
  import opened Common
  import opened Sorting

  // ---------------------------------------------------------------------
  // Harmonisation of a column

  /** The threshold `harmoniser_colonne` uses unless told otherwise. */
  const DefaultSeuil := 90

  /** `column.dropna().unique()`: the non-null values, each once, in the
      order of their first appearance. */
  function Unique(column: seq<Option<string>>): (r: seq<string>)
    ensures Distinct(r)
    ensures forall x :: x in r <==> Some(x) in column
  {
    if column == [] then []
    else
      var u := Unique(column[..|column| - 1]);
      match column[|column| - 1]
      case None => u
      case Some(x) => if x in u then u else u + [x]
  }

  /** First-appearance order: the values met in any prefix of the column
      come first, in the same order. */
  lemma {:induction false} UniquePrefix(column: seq<Option<string>>, p: nat)
    requires p <= |column|
    ensures |Unique(column[..p])| <= |Unique(column)|
    ensures Unique(column)[..|Unique(column[..p])|] == Unique(column[..p])
    decreases |column| - p
  {
    if p == |column| {
      assert column[..p] == column;
    } else {
      UniquePrefix(column, p + 1);
      assert column[..p + 1][..p] == column[..p];
    }
  }

  /** `process.extractOne(q, keys, scorer=score)`: the key with the highest
      score, the first one on a tie, with its score; nothing when there are
      no keys. The scorer is a parameter. */
  function BestMatch(q: string, keys: seq<string>, score: (string, string) -> int): (r: Option<(string, int)>)
    ensures r.None? <==> keys == []
    ensures r.Some? ==> r.value.0 in keys && r.value.1 == score(q, r.value.0)
    ensures r.Some? ==> forall k :: 0 <= k < |keys| ==> score(q, keys[k]) <= r.value.1
  {
    if keys == [] then None
    else
      var b := BestMatch(q, keys[..|keys| - 1], score);
      var last := keys[|keys| - 1];
      if b.None? || score(q, last) > b.value.1 then Some((last, score(q, last))) else b
  }

  /** On a tie the earliest key wins: every key before the chosen one
      scores strictly less. */
  lemma BestMatchFirst(q: string, keys: seq<string>, score: (string, string) -> int)
    requires keys != []
    ensures exists i :: 0 <= i < |keys| && keys[i] == BestMatch(q, keys, score).value.0
                     && forall j :: 0 <= j < i ==> score(q, keys[j]) < BestMatch(q, keys, score).value.1
  {
    var i := BestMatchIndex(q, keys, score);
  }

  /** The position of the chosen key, before which every key scores less. */
  lemma {:induction false} BestMatchIndex(q: string, keys: seq<string>, score: (string, string) -> int)
    returns (i: nat)
    requires keys != []
    ensures i < |keys| && keys[i] == BestMatch(q, keys, score).value.0
    ensures forall j :: 0 <= j < i ==> score(q, keys[j]) < BestMatch(q, keys, score).value.1
  {
    var n := |keys| - 1;
    var b := BestMatch(q, keys[..n], score);
    var r := BestMatch(q, keys, score);
    if b.None? || score(q, keys[n]) > b.value.1 {
      assert r == Some((keys[n], score(q, keys[n])));
      i := n;
      forall j | 0 <= j < n
        ensures score(q, keys[j]) < r.value.1
      {
        assert keys[..n][j] == keys[j];
      }
    } else {
      assert r == b;
      i := BestMatchIndex(q, keys[..n], score);
      forall j | 0 <= j < i
        ensures score(q, keys[j]) < r.value.1
      {
        assert keys[..n][j] == keys[j];
      }
      assert keys[..n][i] == keys[i];
    }
  }

  /** What one value is mapped to, given the mapping so far and its keys
      in insertion order: the representative of the best-scoring key when
      that score reaches the threshold, the value itself otherwise. */
  function Representative(nom: string, keys: seq<string>, m: map<string, string>, seuil: int,
                          score: (string, string) -> int): string
    requires forall k :: k in keys ==> k in m
  {
    var b := BestMatch(nom, keys, score);
    if b.Some? && b.value.1 >= seuil then m[b.value.0] else nom
  }

  /** The mapping `harmoniser_colonne` builds from the distinct values,
      processed in order; the keys seen so far are the values before. */
  function HarmonizeMap(noms: seq<string>, seuil: int, score: (string, string) -> int): (m: map<string, string>)
    ensures forall x :: x in m <==> x in noms
  {
    if noms == [] then map[]
    else
      var prev := noms[..|noms| - 1];
      var m := HarmonizeMap(prev, seuil, score);
      var nom := noms[|noms| - 1];
      m[nom := Representative(nom, prev, m, seuil, score)]
  }

  /** Processing one more value adds its entry to the mapping so far. */
  lemma HarmonizeSnoc(noms: seq<string>, p: nat, seuil: int, score: (string, string) -> int)
    requires p < |noms|
    ensures HarmonizeMap(noms[..p + 1], seuil, score)
         == HarmonizeMap(noms[..p], seuil, score)[noms[p] := Representative(noms[p], noms[..p], HarmonizeMap(noms[..p], seuil, score), seuil, score)]
  {
    assert noms[..p + 1][..p] == noms[..p];
  }

  lemma DistinctPrefix(noms: seq<string>, p: nat)
    requires Distinct(noms) && p < |noms|
    ensures Distinct(noms[..p]) && noms[p] !in noms[..p]
  {
  }

  /** Every value is mapped to one of the values processed. */
  lemma {:induction false} HarmonizeClosed(noms: seq<string>, seuil: int, score: (string, string) -> int)
    ensures forall x :: x in HarmonizeMap(noms, seuil, score) ==> HarmonizeMap(noms, seuil, score)[x] in noms
  {
    if noms != [] {
      var n := |noms| - 1;
      HarmonizeClosed(noms[..n], seuil, score);
      HarmonizeSnoc(noms, n, seuil, score);
      assert noms[..n + 1] == noms;
      var m := HarmonizeMap(noms[..n], seuil, score);
      var big := HarmonizeMap(noms, seuil, score);
      forall x | x in big
        ensures big[x] in noms
      {
        if x != noms[n] {
          assert big[x] == m[x] && m[x] in noms[..n];
        } else {
          var b := BestMatch(noms[n], noms[..n], score);
          if b.Some? && b.value.1 >= seuil {
            assert big[x] == m[b.value.0] && m[b.value.0] in noms[..n];
          }
        }
      }
    }
  }

  /** Every representative is a fixpoint: `mapping[mapping[x]] == mapping[x]`. */
  lemma {:induction false} HarmonizeFixpoint(noms: seq<string>, seuil: int, score: (string, string) -> int)
    requires Distinct(noms)
    ensures forall x :: x in HarmonizeMap(noms, seuil, score) ==>
      HarmonizeMap(noms, seuil, score)[x] in HarmonizeMap(noms, seuil, score)
      && HarmonizeMap(noms, seuil, score)[HarmonizeMap(noms, seuil, score)[x]] == HarmonizeMap(noms, seuil, score)[x]
  {
    if noms != [] {
      var n := |noms| - 1;
      DistinctPrefix(noms, n);
      HarmonizeFixpoint(noms[..n], seuil, score);
      HarmonizeClosed(noms[..n], seuil, score);
      HarmonizeSnoc(noms, n, seuil, score);
      assert noms[..n + 1] == noms;
      var m := HarmonizeMap(noms[..n], seuil, score);
      var nom := noms[n];
      var r := Representative(nom, noms[..n], m, seuil, score);
      var big := HarmonizeMap(noms, seuil, score);
      assert big == m[nom := r];
      assert r == nom || (r in m && m[r] == r);
      forall x | x in big
        ensures big[x] in big && big[big[x]] == big[x]
      {
        if x != nom {
          assert big[x] == m[x] && m[x] in noms[..n] && m[x] in m && m[m[x]] == m[x];
        }
      }
    }
  }

  /** Every entry of `small` is in `big` with the same value. */
  predicate Agrees(small: map<string, string>, big: map<string, string>) {
    forall x :: x in small ==> x in big && big[x] == small[x]
  }

  lemma AgreesTransitive(a: map<string, string>, b: map<string, string>, c: map<string, string>)
    requires Agrees(a, b) && Agrees(b, c)
    ensures Agrees(a, c)
  {
  }

  /** Entries, once made, are never changed by the values that follow. */
  lemma {:induction false} HarmonizePrefix(noms: seq<string>, p: nat, seuil: int, score: (string, string) -> int)
    requires Distinct(noms) && p <= |noms|
    ensures Agrees(HarmonizeMap(noms[..p], seuil, score), HarmonizeMap(noms, seuil, score))
    decreases |noms| - p
  {
    if p == |noms| {
      assert noms[..p] == noms;
    } else {
      HarmonizePrefix(noms, p + 1, seuil, score);
      HarmonizeStepKeeps(noms, p, seuil, score);
      AgreesTransitive(HarmonizeMap(noms[..p], seuil, score), HarmonizeMap(noms[..p + 1], seuil, score),
                       HarmonizeMap(noms, seuil, score));
    }
  }

  /** A new value's entry leaves the earlier entries as they were. */
  lemma HarmonizeStepKeeps(noms: seq<string>, p: nat, seuil: int, score: (string, string) -> int)
    requires Distinct(noms) && p < |noms|
    ensures Agrees(HarmonizeMap(noms[..p], seuil, score), HarmonizeMap(noms[..p + 1], seuil, score))
  {
    HarmonizeSnoc(noms, p, seuil, score);
    DistinctPrefix(noms, p);
    var small := HarmonizeMap(noms[..p], seuil, score);
    forall x | x in small
      ensures x != noms[p]
    {
      assert x in noms[..p];
    }
  }

  /** The entry of the i-th value: itself when no earlier value scores at
      least the threshold against it, and otherwise the representative of
      the best-scoring earlier value. */
  lemma HarmonizeEntry(noms: seq<string>, i: nat, seuil: int, score: (string, string) -> int)
    requires Distinct(noms) && i < |noms|
    ensures noms[i] in HarmonizeMap(noms, seuil, score)
    ensures
      var b := BestMatch(noms[i], noms[..i], score);
      var m := HarmonizeMap(noms, seuil, score);
      (b.None? || b.value.1 < seuil ==> m[noms[i]] == noms[i])
      && (b.Some? && b.value.1 >= seuil ==> b.value.0 in m && m[noms[i]] == m[b.value.0])
  {
    var q := noms[..i + 1];
    assert q[..i] == noms[..i] && q[i] == noms[i];
    HarmonizePrefix(noms, i + 1, seuil, score);
    HarmonizePrefix(noms, i, seuil, score);
    assert noms[i] in q;
  }

  /** The first value processed maps to itself: there are no keys yet. */
  lemma HarmonizeFirst(noms: seq<string>, seuil: int, score: (string, string) -> int)
    requires Distinct(noms) && noms != []
    ensures HarmonizeMap(noms, seuil, score)[noms[0]] == noms[0]
  {
    HarmonizeEntry(noms, 0, seuil, score);
  }

  /** One more value: its entry is the representative of its best match
      among the values before when that reaches the threshold, itself
      otherwise. */
  lemma HarmonizeNext(noms: seq<string>, i: nat, seuil: int, score: (string, string) -> int)
    requires i < |noms|
    ensures var m := HarmonizeMap(noms[..i], seuil, score);
      var b := BestMatch(noms[i], noms[..i], score);
      (b.Some? ==> b.value.0 in m)
      && HarmonizeMap(noms[..i + 1], seuil, score)
         == m[noms[i] := if b.Some? && b.value.1 >= seuil then m[b.value.0] else noms[i]]
  {
    HarmonizeSnoc(noms, i, seuil, score);
  }

  /** The loop of `harmoniser_colonne`: the mapping is filled value by
      value, each new value scored against the keys entered so far, in
      insertion order. */
  method BuildMapping(noms: seq<string>, seuil: int, score: (string, string) -> int)
    returns (mapping: map<string, string>)
    ensures mapping == HarmonizeMap(noms, seuil, score)
  {
    var keys: seq<string> := [];
    mapping := map[];
    for i := 0 to |noms|
      invariant keys == noms[..i]
      invariant mapping == HarmonizeMap(noms[..i], seuil, score)
    {
      var nom := noms[i];
      var found := BestMatch(nom, keys, score);
      HarmonizeNext(noms, i, seuil, score);
      if found.Some? && found.value.1 >= seuil {
        mapping := mapping[nom := mapping[found.value.0]];
      } else {
        mapping := mapping[nom := nom];
      }
      PrefixSnoc(noms, i);
      keys := keys + [nom];
    }
    assert noms[..|noms|] == noms;
  }

  /** `harmoniser_colonne`: the mapping built from the column's distinct
      values; the harmonised column maps every non-null value through it
      and leaves the nulls null. */
  method HarmoniserColonne(column: seq<Option<string>>, score: (string, string) -> int, seuil: int := DefaultSeuil)
    returns (harmonized: seq<Option<string>>, mapping: map<string, string>)
    ensures mapping == HarmonizeMap(Unique(column), seuil, score)
    ensures |harmonized| == |column|
    ensures forall i :: 0 <= i < |column| ==>
      (column[i].None? ==> harmonized[i].None?)
      && (column[i].Some? ==> column[i].value in mapping && harmonized[i] == Some(mapping[column[i].value]))
  {
    var noms := Unique(column);
    mapping := BuildMapping(noms, seuil, score);
    forall i | 0 <= i < |column| && column[i].Some?
      ensures column[i].value in mapping
    {
      assert Some(column[i].value) in column;
    }
    harmonized := seq(|column|, i requires 0 <= i < |column| =>
                        match column[i] case None => None case Some(x) => Some(mapping[x]));
  }

  // ---------------------------------------------------------------------
  // Season code of a card name

  /** The first '-' at or after i, or the end of the name. */
  function DashFrom(s: string, i: nat): (q: nat)
    requires i <= |s|
    ensures i <= q <= |s|
    ensures forall k :: i <= k < q ==> s[k] != '-'
    ensures q < |s| ==> s[q] == '-'
    decreases |s| - i
  {
    if i == |s| || s[i] == '-' then i else DashFrom(s, i + 1)
  }

  /** The pattern `\(([^-]+)-\d+\)` tried at position p. The group runs to
      the first '-' after the parenthesis, since it cannot take one; the
      digit run after the '-' must be non-empty and followed by ')'. */
  function MatchAt(s: string, p: nat): Option<string>
    requires p < |s|
  {
    if s[p] != '(' then None
    else
      var q := DashFrom(s, p + 1);
      if q == |s| || q == p + 1 then None
      else
        var d := RunLength(s[q + 1..], IsDigit);
        if d == 0 || q + 1 + d == |s| || s[q + 1 + d] != ')' then None
        else Some(s[p + 1..q])
  }

  /** The text from p reads "(" g "-" followed by d digits and ")", with g
      non-empty and free of '-'. */
  predicate MatchesAt(s: string, p: nat, g: string, d: nat) {
    p + |g| + d + 3 <= |s| && g != [] && '-' !in g && d >= 1
    && s[p] == '(' && s[p + 1..p + 1 + |g|] == g && s[p + 1 + |g|] == '-'
    && AllDigits(s[p + 2 + |g|..p + 2 + |g| + d]) && s[p + 2 + |g| + d] == ')'
  }

  /** The pattern matches at p exactly when the text there has the shape
      it describes, and its group is the text between '(' and '-'. */
  lemma MatchAtSound(s: string, p: nat)
    requires p < |s| && MatchAt(s, p).Some?
    ensures exists d :: MatchesAt(s, p, MatchAt(s, p).value, d)
  {
    var q := DashFrom(s, p + 1);
    var g := s[p + 1..q];
    var d := RunLength(s[q + 1..], IsDigit);
    assert s[p + 1..p + 1 + |g|] == g;
    assert forall k :: 0 <= k < |g| ==> g[k] == s[p + 1 + k];
    assert s[q + 1..q + 1 + d] == s[q + 1..][..d];
    assert MatchesAt(s, p, g, d);
  }

  lemma MatchAtComplete(s: string, p: nat, g: string, d: nat)
    requires MatchesAt(s, p, g, d)
    ensures MatchAt(s, p) == Some(g)
  {
    var q := p + 1 + |g|;
    forall k | p + 1 <= k < q
      ensures s[k] != '-'
    {
      assert s[k] == s[p + 1..p + 1 + |g|][k - p - 1];
    }
    assert DashFrom(s, p + 1) == q by {
      DashFromFirst(s, p + 1, q);
    }
    var t := s[q + 1..];
    assert forall k :: 0 <= k < d ==> IsDigit(t[k]) by {
      forall k | 0 <= k < d ensures IsDigit(t[k]) {
        assert t[k] == s[q + 1..q + 1 + d][k];
      }
    }
    assert t[d] == ')';
    RunLengthExact(t, IsDigit, d);
  }

  lemma {:induction false} DashFromFirst(s: string, i: nat, q: nat)
    requires i <= q < |s| && s[q] == '-'
    requires forall k :: i <= k < q ==> s[k] != '-'
    ensures DashFrom(s, i) == q
    decreases q - i
  {
    if i < q {
      DashFromFirst(s, i + 1, q);
    }
  }

  lemma {:induction false} RunLengthExact(t: string, p: char -> bool, d: nat)
    requires d < |t| && !p(t[d])
    requires forall k :: 0 <= k < d ==> p(t[k])
    ensures RunLength(t, p) == d
  {
    if d > 0 {
      RunLengthExact(t[1..], p, d - 1);
    }
  }

  /** `re.search` from position `from`: the group of the leftmost match. */
  function SearchFrom(s: string, from: nat): Option<string>
    requires from <= |s|
    decreases |s| - from
  {
    if from == |s| then None
    else if MatchAt(s, from).Some? then MatchAt(s, from)
    else SearchFrom(s, from + 1)
  }

  /** The search returns the group of a match with no match before it, and
      nothing only when no position from `from` on matches. */
  lemma SearchFromLeftmost(s: string, from: nat)
    requires from <= |s|
    ensures SearchFrom(s, from).Some? ==>
      exists p :: from <= p < |s| && MatchAt(s, p) == SearchFrom(s, from)
                  && forall p' :: from <= p' < p ==> MatchAt(s, p').None?
    ensures SearchFrom(s, from).None? ==> forall p :: from <= p < |s| ==> MatchAt(s, p).None?
  {
    if SearchFrom(s, from).Some? {
      var p := SearchFromIndex(s, from);
    } else {
      SearchFromNone(s, from);
    }
  }

  /** The position whose match the search returns. */
  lemma {:induction false} SearchFromIndex(s: string, from: nat) returns (p: nat)
    requires from <= |s| && SearchFrom(s, from).Some?
    ensures from <= p < |s| && MatchAt(s, p) == SearchFrom(s, from)
    ensures forall p' :: from <= p' < p ==> MatchAt(s, p').None?
    decreases |s| - from
  {
    if MatchAt(s, from).Some? {
      p := from;
    } else {
      assert SearchFrom(s, from) == SearchFrom(s, from + 1);
      p := SearchFromIndex(s, from + 1);
    }
  }

  /** A search that finds nothing passed no match. */
  lemma {:induction false} SearchFromNone(s: string, from: nat)
    requires from <= |s| && SearchFrom(s, from).None?
    ensures forall p :: from <= p < |s| ==> MatchAt(s, p).None?
    decreases |s| - from
  {
    if from < |s| {
      SearchFromNone(s, from + 1);
    }
  }

  /** `extraire_saison_depuis_nom`: the set code of the first
      "(code-number)" group of a card name, if any. */
  function ExtraireSaison(nomCarte: string): Option<string> {
    SearchFrom(nomCarte, 0)
  }

  /** The result is the group of a match at some position with no match
      before it, and there is no result only when no position matches. */
  lemma ExtraireSaisonLeftmost(nomCarte: string)
    ensures ExtraireSaison(nomCarte).Some? ==>
      exists p, d :: 0 <= p < |nomCarte| && MatchesAt(nomCarte, p, ExtraireSaison(nomCarte).value, d)
                  && forall p' :: 0 <= p' < p ==> MatchAt(nomCarte, p').None?
    ensures ExtraireSaison(nomCarte).None? ==>
      forall p, g, d :: 0 <= p < |nomCarte| ==> !MatchesAt(nomCarte, p, g, d)
  {
    var r := ExtraireSaison(nomCarte);
    SearchFromLeftmost(nomCarte, 0);
    if r.Some? {
      var p :| 0 <= p < |nomCarte| && MatchAt(nomCarte, p) == r
               && forall p' :: 0 <= p' < p ==> MatchAt(nomCarte, p').None?;
      MatchAtSound(nomCarte, p);
      var d :| MatchesAt(nomCarte, p, r.value, d);
    } else {
      forall p, g, d | 0 <= p < |nomCarte|
        ensures !MatchesAt(nomCarte, p, g, d)
      {
        if MatchesAt(nomCarte, p, g, d) {
          MatchAtComplete(nomCarte, p, g, d);
        }
      }
    }
  }

  /** The search passes over text without an opening parenthesis: no
      match can start there. */
  lemma {:induction false} SearchSkipsPlain(s: string, from: nat, p: nat)
    requires from <= p <= |s| && '(' !in s[from..p]
    ensures SearchFrom(s, from) == SearchFrom(s, p)
    decreases p - from
  {
    if from < p {
      assert s[from] == s[from..p][0];
      assert s[from + 1..p] == s[from..p][1..];
      SearchSkipsPlain(s, from + 1, p);
    }
  }

  /** "Pikachu ex (A1-96)" has the set code "A1". */
  lemma ExtraireSaisonExample()
    ensures ExtraireSaison("Pikachu ex (A1-96)") == Some("A1")
  {
    var s := "Pikachu ex (A1-96)";
    assert s[0..11] == "Pikachu ex ";
    SearchSkipsPlain(s, 0, 11);
    ExampleShape(s);
    MatchAtComplete(s, 11, "A1", 2);
  }

  lemma ExampleShape(s: string)
    requires s == "Pikachu ex (A1-96)"
    ensures MatchesAt(s, 11, "A1", 2)
  {
    assert s[12..14] == "A1" && s[15..17] == "96";
  }

  /** The group may cross a closing parenthesis: in "X (promo) (A1-5)" the
      first '(' already starts a match, whose group is "promo) (A1". */
  lemma ExtraireSaisonCrossesParenthesis()
    ensures ExtraireSaison("X (promo) (A1-5)") == Some("promo) (A1")
  {
    var s := "X (promo) (A1-5)";
    assert s[0..2] == "X ";
    SearchSkipsPlain(s, 0, 2);
    CrossingShape(s);
    MatchAtComplete(s, 2, "promo) (A1", 1);
  }

  lemma CrossingShape(s: string)
    requires s == "X (promo) (A1-5)"
    ensures MatchesAt(s, 2, "promo) (A1", 1)
  {
    assert s[3..13] == "promo) (A1" && s[14..15] == "5";
  }

  // ---------------------------------------------------------------------
  // Ordering of a deck before hashing

  /** A card of a deck as `calculer_hash_liste` receives it. */
  datatype Card = Card(cardName: string, cardCount: int)

  function NameKey(c: Card): seq<int> {
    Codes(c.cardName)
  }

  /** `sorted(cartes, key=lambda x: x["card_name"])`: the cards, rearranged,
      in non-decreasing name order. */
  function SortCards(cartes: seq<Card>): (r: seq<Card>)
    ensures multiset(r) == multiset(cartes)
    ensures SortedBy(r, NameKey)
  {
    SortBySorted(cartes, NameKey);
    SortBy(cartes, NameKey)
  }

  /** The sort is stable: the cards that share a name keep their input
      order. */
  lemma SortCardsStable(cartes: seq<Card>, name: string)
    ensures WithKey(SortCards(cartes), NameKey, Codes(name)) == WithKey(cartes, NameKey, Codes(name))
  {
    SortByStable(cartes, NameKey, Codes(name));
  }

  lemma CodesInjective(a: string, b: string)
    requires Codes(a) == Codes(b)
    ensures a == b
  {
    assert |a| == |b|;
    forall i | 0 <= i < |a|
      ensures a[i] == b[i]
    {
      assert Codes(a)[i] == Codes(b)[i];
    }
  }

  /** When no two different cards share a name, every rearrangement of the
      deck is hashed as the same sequence. */
  lemma SortCardsCanonical(cartes: seq<Card>, other: seq<Card>)
    requires multiset(other) == multiset(cartes)
    requires forall i, j :: 0 <= i < |cartes| && 0 <= j < |cartes| && cartes[i].cardName == cartes[j].cardName
               ==> cartes[i] == cartes[j]
    ensures SortCards(other) == SortCards(cartes)
  {
    forall x, y | x in cartes && y in cartes && NameKey(x) == NameKey(y)
      ensures x == y
    {
      CodesInjective(x.cardName, y.cardName);
      var i :| 0 <= i < |cartes| && cartes[i] == x;
      var j :| 0 <= j < |cartes| && cartes[j] == y;
    }
    SortByCanonical(cartes, other, NameKey);
  }
}
