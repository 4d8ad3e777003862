/** Sequence and text helpers shared by the modules of the model: the
    optional value, list comprehensions that filter, Python's one-character
    `split`/`join`, and decimal rendering and parsing of integers. */
module Common {

  datatype Option<+T> = None | Some(value: T)

  /** The prefix one longer is the prefix with the next element added. */
  lemma PrefixSnoc<T>(s: seq<T>, i: nat)
    requires i < |s|
    ensures s[..i + 1] == s[..i] + [s[i]] && s[..i + 1][..i] == s[..i]
  {
  }

  /** A filtering list comprehension: the images, in order, of the
      elements that `f` maps to `Some`. */
  function FilterMap<A, B>(s: seq<A>, f: A -> Option<B>): (r: seq<B>)
    ensures |r| <= |s|
  {
    if s == [] then []
    else FilterMap(s[..|s| - 1], f) + (match f(s[|s| - 1]) case Some(b) => [b] case None => [])
  }

  /** A filtering comprehension distributes over concatenation, so each
      element contributes independently of its neighbours. */
  lemma {:induction false} FilterMapAppend<A, B>(a: seq<A>, b: seq<A>, f: A -> Option<B>)
    ensures FilterMap(a + b, f) == FilterMap(a, f) + FilterMap(b, f)
    decreases |b|
  {
    if b == [] {
      assert a + b == a;
    } else {
      var n := |b|;
      assert (a + b)[..|a + b| - 1] == a + b[..n - 1];
      assert (a + b)[|a + b| - 1] == b[n - 1];
      FilterMapAppend(a, b[..n - 1], f);
    }
  }

  /** What one element contributes to a filtering comprehension. */
  lemma FilterMapSingle<A, B>(x: A, f: A -> Option<B>)
    ensures FilterMap([x], f) == match f(x) case Some(b) => [b] case None => []
  {
    assert [x][..0] == [];
  }

  /** Extending the input by one element extends the comprehension by
      that element's contribution. */
  lemma FilterMapSnoc<A, B>(s: seq<A>, x: A, f: A -> Option<B>)
    ensures FilterMap(s + [x], f) == FilterMap(s, f) + match f(x) case Some(b) => [b] case None => []
  {
    assert (s + [x])[..|s|] == s;
  }

  /** The concatenation, in order, of the lists f gives for the elements of
      s: a loop of `result += f(x)`. */
  function ConcatMap<A, B>(s: seq<A>, f: A -> seq<B>): seq<B> {
    if s == [] then [] else ConcatMap(s[..|s| - 1], f) + f(s[|s| - 1])
  }

  lemma {:induction false} ConcatMapAppend<A, B>(a: seq<A>, b: seq<A>, f: A -> seq<B>)
    ensures ConcatMap(a + b, f) == ConcatMap(a, f) + ConcatMap(b, f)
    decreases |b|
  {
    if b == [] {
      assert a + b == a;
    } else {
      var n := |b|;
      assert (a + b)[..|a + b| - 1] == a + b[..n - 1];
      assert (a + b)[|a + b| - 1] == b[n - 1];
      ConcatMapAppend(a, b[..n - 1], f);
    }
  }

  /** Python's `sep.join(parts)` for a one-character separator. */
  function Join(parts: seq<string>, sep: char): (r: string)
    ensures |parts| == 1 ==> r == parts[0]
  {
    if parts == [] then ""
    else if |parts| == 1 then parts[0]
    else parts[0] + [sep] + Join(parts[1..], sep)
  }

  /** Python's `s.split(sep)` for a one-character separator: the maximal
      pieces between separators, never an empty list. */
  function Split(s: string, sep: char): (r: seq<string>)
    ensures |r| >= 1
    ensures forall i :: 0 <= i < |r| ==> sep !in r[i]
  {
    if s == [] then [""]
    else if s[0] == sep then [""] + Split(s[1..], sep)
    else
      var t := Split(s[1..], sep);
      [[s[0]] + t[0]] + t[1..]
  }

  lemma {:induction false} SplitNoSeparator(p: string, sep: char)
    requires sep !in p
    ensures Split(p, sep) == [p]
  {
    if p != [] {
      SplitNoSeparator(p[1..], sep);
      assert p[0] != sep;
      assert [p[0]] + p[1..] == p;
    }
  }

  lemma {:induction false} SplitPiece(p: string, rest: string, sep: char)
    requires sep !in p
    ensures Split(p + [sep] + rest, sep) == [p] + Split(rest, sep)
  {
    if p == [] {
      assert p + [sep] + rest == [sep] + rest;
      assert ([sep] + rest)[1..] == rest;
    } else {
      assert (p + [sep] + rest)[1..] == p[1..] + [sep] + rest;
      SplitPiece(p[1..], rest, sep);
      assert [p[0]] + p[1..] == p;
    }
  }

  /** Splitting undoes joining when no piece holds the separator. */
  lemma {:induction false} SplitJoin(parts: seq<string>, sep: char)
    requires |parts| >= 1
    requires forall i :: 0 <= i < |parts| ==> sep !in parts[i]
    ensures Split(Join(parts, sep), sep) == parts
  {
    if |parts| == 1 {
      SplitNoSeparator(parts[0], sep);
    } else {
      SplitJoin(parts[1..], sep);
      SplitPiece(parts[0], Join(parts[1..], sep), sep);
      assert [parts[0]] + parts[1..] == parts;
    }
  }

  /** Joining undoes splitting: the pieces and the separators between
      them are the whole string. */
  lemma {:induction false} JoinSplit(s: string, sep: char)
    ensures Join(Split(s, sep), sep) == s
  {
    if s != [] {
      JoinSplit(s[1..], sep);
      var t := Split(s[1..], sep);
      if s[0] == sep {
        assert ([""] + t)[1..] == t;
        assert [sep] + s[1..] == s;
      } else if |t| == 1 {
        assert [s[0]] + s[1..] == s;
      } else {
        assert ([[s[0]] + t[0]] + t[1..])[1..] == t[1..];
        assert [s[0]] + s[1..] == s;
      }
    }
  }

  predicate AllChars(s: string, p: char -> bool) {
    forall i :: 0 <= i < |s| ==> p(s[i])
  }

  /** Python's `''.join(ch for ch in s if p(ch))`: the characters of s that
      satisfy p, in order. */
  function KeepChars(s: string, p: char -> bool): (r: string)
    ensures |r| <= |s| && AllChars(r, p)
  {
    if s == [] then [] else (if p(s[0]) then [s[0]] else []) + KeepChars(s[1..], p)
  }

  /** Each character is kept or dropped on its own. */
  lemma {:induction false} KeepCharsAppend(a: string, b: string, p: char -> bool)
    ensures KeepChars(a + b, p) == KeepChars(a, p) + KeepChars(b, p)
  {
    if a == [] {
      assert a + b == b;
    } else {
      var h: string := if p(a[0]) then [a[0]] else [];
      assert (a + b)[0] == a[0] && (a + b)[1..] == a[1..] + b;
      assert KeepChars(a + b, p) == h + KeepChars(a[1..] + b, p);
      KeepCharsAppend(a[1..], b, p);
      assert KeepChars(a, p) == h + KeepChars(a[1..], p);
    }
  }

  /** Keeping the characters that satisfy p changes nothing in a string
      made only of them. */
  lemma {:induction false} KeepCharsAll(s: string, p: char -> bool)
    requires AllChars(s, p)
    ensures KeepChars(s, p) == s
  {
    if s != [] {
      KeepCharsAll(s[1..], p);
      assert [s[0]] + s[1..] == s;
    }
  }

  /** The pieces of a split hold only characters of the string. */
  lemma {:induction false} SplitChars(s: string, sep: char, p: char -> bool)
    requires AllChars(s, p)
    ensures forall k :: 0 <= k < |Split(s, sep)| ==> AllChars(Split(s, sep)[k], p)
  {
    if s != [] {
      SplitChars(s[1..], sep, p);
    }
  }

  /** A join holds only characters of the pieces and the separator. */
  lemma {:induction false} JoinChars(parts: seq<string>, sep: char, p: char -> bool)
    requires p(sep)
    requires forall k :: 0 <= k < |parts| ==> AllChars(parts[k], p)
    ensures AllChars(Join(parts, sep), p)
  {
    if |parts| > 1 {
      JoinChars(parts[1..], sep, p);
      var j := Join(parts[1..], sep);
      assert Join(parts, sep) == parts[0] + [sep] + j;
      forall i | 0 <= i < |Join(parts, sep)|
        ensures p(Join(parts, sep)[i])
      {
        if i < |parts[0]| {
          assert Join(parts, sep)[i] == parts[0][i];
        } else if i > |parts[0]| {
          assert Join(parts, sep)[i] == j[i - |parts[0]| - 1];
        }
      }
    }
  }

  /** A prefix without separators begins the first piece. */
  lemma {:induction false} SplitFirstPiece(pre: string, s: string, sep: char)
    requires sep !in pre
    ensures Split(pre + s, sep)[0] == pre + Split(s, sep)[0]
  {
    if pre == [] {
      assert pre + s == s;
    } else {
      assert (pre + s)[0] == pre[0] && pre[0] != sep;
      assert (pre + s)[1..] == pre[1..] + s;
      SplitFirstPiece(pre[1..], s, sep);
      assert [pre[0]] + (pre[1..] + Split(s, sep)[0]) == pre + Split(s, sep)[0];
    }
  }

  /** A join begins with its first piece. */
  lemma JoinStartsWith(parts: seq<string>, sep: char)
    requires |parts| >= 1
    ensures |Join(parts, sep)| >= |parts[0]| && Join(parts, sep)[..|parts[0]|] == parts[0]
  {
    if |parts| > 1 {
      assert Join(parts, sep) == parts[0] + ([sep] + Join(parts[1..], sep));
    }
  }

  predicate IsDigit(c: char) {
    '0' <= c <= '9'
  }

  predicate AllDigits(s: string) {
    forall i :: 0 <= i < |s| ==> IsDigit(s[i])
  }

  function DigitValue(c: char): (d: nat)
    requires IsDigit(c)
    ensures d < 10
  {
    c as int - '0' as int
  }

  function DigitChar(d: nat): (c: char)
    requires d < 10
    ensures IsDigit(c) && DigitValue(c) == d
  {
    ('0' as int + d) as char
  }

  /** Python's `int(s)` on a string of decimal digits. */
  function DigitsValue(s: string): nat
    requires AllDigits(s)
  {
    if s == [] then 0 else DigitsValue(s[..|s| - 1]) * 10 + DigitValue(s[|s| - 1])
  }

  /** Python's `str(n)` for a natural number. */
  function NatToString(n: nat): (s: string)
    ensures |s| >= 1 && AllDigits(s)
  {
    if n < 10 then [DigitChar(n)] else NatToString(n / 10) + [DigitChar(n % 10)]
  }

  /** Reading back the decimal rendering gives the number. */
  lemma {:induction false} NatToStringRoundTrip(n: nat)
    ensures DigitsValue(NatToString(n)) == n
  {
    var s := NatToString(n);
    if n < 10 {
      assert s[..0] == [];
    } else {
      NatToStringRoundTrip(n / 10);
      assert s[..|s| - 1] == NatToString(n / 10);
    }
  }

  /** Distinct numbers have distinct decimal renderings. */
  lemma NatToStringInjective(m: nat, n: nat)
    requires NatToString(m) == NatToString(n)
    ensures m == n
  {
    NatToStringRoundTrip(m);
    NatToStringRoundTrip(n);
  }

  /** Python's `str(i)` for an integer. */
  function IntToString(i: int): (s: string)
    ensures i < 0 <==> |s| > 0 && s[0] == '-'
  {
    if i < 0 then "-" + NatToString(-i) else NatToString(i)
  }

  /** Length of the longest prefix of s made of characters satisfying p:
      what a greedy regular-expression repetition consumes. */
  function RunLength(s: string, p: char -> bool): (n: nat)
    ensures n <= |s|
    ensures forall i :: 0 <= i < n ==> p(s[i])
    ensures n < |s| ==> !p(s[n])
  {
    if s == [] || !p(s[0]) then 0 else 1 + RunLength(s[1..], p)
  }

  /** The character codes of a string: Python compares strings by them. */
  function Codes(s: string): (r: seq<int>)
    ensures |r| == |s| && forall i :: 0 <= i < |s| ==> r[i] == s[i] as int
  {
    seq(|s|, i requires 0 <= i < |s| => s[i] as int)
  }

  /** No element occurs twice. */
  predicate Distinct<T(==)>(s: seq<T>) {
    forall i, j :: 0 <= i < j < |s| ==> s[i] != s[j]
  }
}
