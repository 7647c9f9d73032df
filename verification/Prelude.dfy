/** Small datatypes and string functions shared by the component models. */
module Prelude {
  /** A field that may be missing (Python's None, or a value of the wrong type). */
  datatype Option<+T> = None | Some(value: T)

  function Max(x: int, y: int): (m: int)
    ensures m >= x && m >= y && (m == x || m == y)
  {
    if x > y then x else y
  }

  function Min(x: int, y: int): (m: int)
    ensures m <= x && m <= y && (m == x || m == y)
  {
    if x < y then x else y
  }

  lemma SubsetSize<T>(a: set<T>, b: set<T>)
    requires a <= b
    ensures |a| <= |b|
  {
    assert b == a + (b - a);
  }

  lemma FirstOf<T>(s: seq<T>) returns (x: T)
    requires s != []
    ensures x in s
  {
    x := s[0];
  }

  /** The whitespace that str.strip removes (ASCII). */
  predicate IsBlank(c: char) { c == ' ' || '\t' <= c <= '\r' || '\U{1C}' <= c <= '\U{1F}' }

  function StripLeft(s: string): string {
    if s != "" && IsBlank(s[0]) then StripLeft(s[1..]) else s
  }

  function StripRight(s: string): string {
    if s != "" && IsBlank(s[|s| - 1]) then StripRight(s[..|s| - 1]) else s
  }

  function Strip(s: string): string {
    StripRight(StripLeft(s))
  }

  function Lower(s: string): string {
    seq(|s|, i requires 0 <= i < |s| => if 'A' <= s[i] <= 'Z' then (s[i] as int + 32) as char else s[i])
  }

  const BLANKS: set<char> := {' ', '\t', '\n', '\U{0B}', '\U{0C}', '\r', '\U{1C}', '\U{1D}', '\U{1E}', '\U{1F}'}

  /** The core of s lies at i..j: blanks around it, none at its ends. */
  ghost predicate CoreAt(s: string, i: int, j: int) {
    && 0 <= i <= j <= |s|
    && (forall k :: 0 <= k < i || j <= k < |s| ==> s[k] in BLANKS)
    && (i < j ==> s[i] !in BLANKS && s[j - 1] !in BLANKS)
  }

  ghost predicate AllBlank(s: string) {
    forall k :: 0 <= k < |s| ==> s[k] in BLANKS
  }

  lemma BlankMeans(c: char)
    ensures IsBlank(c) <==> c in BLANKS
  {
  }

  lemma {:induction false} StripLeftAt(s: string) returns (i: nat)
    ensures i <= |s| && StripLeft(s) == s[i..] && (forall k :: 0 <= k < i ==> s[k] in BLANKS)
    ensures i < |s| ==> s[i] !in BLANKS
  {
    if s != "" { BlankMeans(s[0]); }
    if s != "" && IsBlank(s[0]) {
      i := StripLeftAt(s[1..]);
      i := i + 1;
      assert forall k :: 1 <= k < i ==> s[k] == s[1..][k - 1];
    } else {
      i := 0;
    }
  }

  lemma {:induction false} StripRightAt(s: string) returns (j: nat)
    ensures j <= |s| && StripRight(s) == s[..j] && (forall k :: j <= k < |s| ==> s[k] in BLANKS)
    ensures 0 < j ==> s[j - 1] !in BLANKS
  {
    if s != "" { BlankMeans(s[|s| - 1]); }
    if s != "" && IsBlank(s[|s| - 1]) {
      j := StripRightAt(s[..|s| - 1]);
      assert forall k :: 0 <= k < |s| - 1 ==> s[k] == s[..|s| - 1][k];
    } else {
      j := |s|;
    }
  }

  /** Stripping leaves the core. */
  lemma StripIsCore(s: string) returns (i: nat, j: nat)
    ensures CoreAt(s, i, j) && Strip(s) == s[i..j]
  {
    i := StripLeftAt(s);
    var n := StripRightAt(s[i..]);
    j := i + n;
    assert forall k :: i <= k < |s| ==> s[k] == s[i..][k - i];
    assert s[i..][..n] == s[i..j];
  }

  lemma CoreIsOne(s: string, i: int, j: int, m: int, n: int)
    requires CoreAt(s, i, j) && CoreAt(s, m, n)
    ensures s[i..j] == s[m..n]
  {
  }

  /** The letters agree, capital or not. */
  ghost predicate SameLetters(s: string, word: string) {
    |s| == |word| && forall k :: 0 <= k < |s| ==> s[k] == word[k] || ('A' <= s[k] <= 'Z' && word[k] as int == s[k] as int + 32)
  }

  /** s is the word but for blanks around it and capitals in it. */
  ghost predicate Spells(s: string, word: string) {
    exists i, j :: CoreAt(s, i, j) && SameLetters(s[i..j], word)
  }

  ghost predicate NoCapitals(word: string) {
    forall k :: 0 <= k < |word| ==> !('A' <= word[k] <= 'Z')
  }

  lemma NormMeans(s: string, word: string)
    requires NoCapitals(word)
    ensures Lower(Strip(s)) == word <==> Spells(s, word)
  {
    var i, j := StripIsCore(s);
    LowerMeans(s[i..j], word);
    if m, n :| CoreAt(s, m, n) && SameLetters(s[m..n], word) { CoreIsOne(s, i, j, m, n); }
  }

  /** Stripping and lowering keeps the letters of the core, all of them small. */
  lemma NormSpells(s: string)
    ensures NoCapitals(Lower(Strip(s))) && Spells(s, Lower(Strip(s)))
    ensures Lower(Strip(s)) == "" <==> AllBlank(s)
  {
    NormMeans(s, Lower(Strip(s)));
    var i, j := StripIsCore(s);
    assert i < j ==> s[i] !in BLANKS;
  }

  lemma LowerMeans(s: string, word: string)
    requires NoCapitals(word)
    ensures Lower(s) == word <==> SameLetters(s, word)
  {
    if SameLetters(s, word) {
      forall k | 0 <= k < |s| ensures Lower(s)[k] == word[k] {
      }
    }
    if Lower(s) == word {
      forall k | 0 <= k < |s| ensures s[k] == word[k] || ('A' <= s[k] <= 'Z' && word[k] as int == s[k] as int + 32) {
        assert Lower(s)[k] == word[k];
      }
    }
  }

  /** The order of strings by their characters. */
  predicate LexLe(a: string, b: string) {
    a == "" || (b != "" && (a[0] < b[0] || (a[0] == b[0] && LexLe(a[1..], b[1..]))))
  }

  /** The first string is a prefix of the second, or has the smaller character where they first differ. */
  ghost predicate LexBefore(a: string, b: string) {
    a <= b || exists k :: DiffersAt(a, b, k) && a[k] < b[k]
  }

  ghost predicate DiffersAt(a: string, b: string, k: int) {
    0 <= k < |a| && k < |b| && a[k] != b[k] && a[..k] == b[..k]
  }

  lemma LexTail(a: string, b: string)
    requires a != "" && b != "" && a[0] == b[0]
    ensures LexBefore(a, b) <==> LexBefore(a[1..], b[1..])
  {
    if k :| DiffersAt(a, b, k) && a[k] < b[k] { assert DiffersAt(a[1..], b[1..], k - 1); }
    if k :| DiffersAt(a[1..], b[1..], k) && a[1..][k] < b[1..][k] {
      assert a[..k + 1] == [a[0]] + a[1..][..k] && b[..k + 1] == [b[0]] + b[1..][..k];
      assert DiffersAt(a, b, k + 1);
    }
  }

  lemma {:induction false} LexMeans(a: string, b: string)
    ensures LexLe(a, b) <==> LexBefore(a, b)
  {
    if a != "" && b != "" {
      if a[0] == b[0] {
        LexTail(a, b);
        LexMeans(a[1..], b[1..]);
      } else {
        assert DiffersAt(a, b, 0);
      }
    }
  }

  lemma {:induction false} LexTotal(a: string, b: string)
    ensures LexLe(a, b) || LexLe(b, a)
  {
    if a != "" && b != "" && a[0] == b[0] { LexTotal(a[1..], b[1..]); }
  }

  lemma {:induction false} LexTransitive(a: string, b: string, c: string)
    requires LexLe(a, b) && LexLe(b, c)
    ensures LexLe(a, c)
  {
    if a != "" && b != "" && c != "" && a[0] == b[0] == c[0] { LexTransitive(a[1..], b[1..], c[1..]); }
  }

  // ------------------------------------------------------------ stable sorting

  /** Behind every element that is not greater. */
  function InsertBy<T>(s: seq<T>, x: T, le: (T, T) -> bool): seq<T> {
    if s == [] || le(s[|s| - 1], x) then s + [x] else InsertBy(s[..|s| - 1], x, le) + [s[|s| - 1]]
  }

  function SortBy<T>(s: seq<T>, le: (T, T) -> bool): seq<T> {
    if s == [] then [] else InsertBy(SortBy(s[..|s| - 1], le), s[|s| - 1], le)
  }

  ghost predicate OrderedBy<T>(s: seq<T>, le: (T, T) -> bool) {
    forall i, j :: 0 <= i < j < |s| ==> le(s[i], s[j])
  }

  ghost predicate Transitive<T(!new)>(le: (T, T) -> bool) {
    forall a, b, c :: le(a, b) && le(b, c) ==> le(a, c)
  }

  ghost predicate Total<T(!new)>(le: (T, T) -> bool) {
    forall a, b :: le(a, b) || le(b, a)
  }

  lemma MultisetPush<T>(s: seq<T>)
    requires s != []
    ensures multiset(s) == multiset(s[..|s| - 1]) + multiset{s[|s| - 1]}
  {
    assert s == s[..|s| - 1] + [s[|s| - 1]];
  }

  lemma {:induction false} InsertByKeeps<T>(s: seq<T>, x: T, le: (T, T) -> bool)
    ensures multiset(InsertBy(s, x, le)) == multiset(s) + multiset{x}
  {
    if s != [] && !le(s[|s| - 1], x) {
      InsertByKeeps(s[..|s| - 1], x, le);
      MultisetPush(s);
    }
  }

  lemma InsertByMembers<T>(s: seq<T>, x: T, le: (T, T) -> bool, y: T)
    ensures y in InsertBy(s, x, le) <==> y in s || y == x
  {
    InsertByKeeps(s, x, le);
    assert y in InsertBy(s, x, le) <==> y in multiset(InsertBy(s, x, le));
  }

  /** The order is kept where the new element can be compared with the others. */
  lemma {:induction false} InsertByOrders<T(!new)>(s: seq<T>, x: T, le: (T, T) -> bool)
    requires OrderedBy(s, le) && Transitive(le) && forall y :: y in s ==> le(y, x) || le(x, y)
    ensures OrderedBy(InsertBy(s, x, le), le)
  {
    if s != [] {
      var front, last := s[..|s| - 1], s[|s| - 1];
      if le(last, x) {
        forall i | 0 <= i < |s| ensures le(s[i], x) {
          assert i < |s| - 1 ==> le(s[i], last);
        }
      } else {
        InsertByOrders(front, x, le);
        assert last in s;
        forall i | 0 <= i < |InsertBy(front, x, le)| ensures le(InsertBy(front, x, le)[i], last) {
          InsertByMembers(front, x, le, InsertBy(front, x, le)[i]);
        }
      }
    }
  }

  lemma {:induction false} SortByKeeps<T>(s: seq<T>, le: (T, T) -> bool)
    ensures multiset(SortBy(s, le)) == multiset(s)
  {
    if s != [] {
      SortByKeeps(s[..|s| - 1], le);
      InsertByKeeps(SortBy(s[..|s| - 1], le), s[|s| - 1], le);
      MultisetPush(s);
    }
  }

  lemma {:induction false} SortByOrders<T(!new)>(s: seq<T>, le: (T, T) -> bool)
    requires Transitive(le) && Total(le)
    ensures OrderedBy(SortBy(s, le), le)
  {
    if s != [] {
      SortByOrders(s[..|s| - 1], le);
      InsertByOrders(SortBy(s[..|s| - 1], le), s[|s| - 1], le);
    }
  }
}
