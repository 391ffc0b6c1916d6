/** Strings in order of their code points, which for UTF-8 is byte order, and blank strings. */
module Text {

  // ---- Order

  predicate AtMost(a: string, b: string) {
    a == "" || (b != "" && (a[0] < b[0] || (a[0] == b[0] && AtMost(a[1..], b[1..]))))
  }

  lemma {:induction false} AtMostIsTotal(a: string, b: string)
    ensures AtMost(a, b) || AtMost(b, a)
    ensures AtMost(a, b) && AtMost(b, a) ==> a == b
  {
    if a != "" && b != "" {
      AtMostIsTotal(a[1..], b[1..]);
      assert a == [a[0]] + a[1..] && b == [b[0]] + b[1..];
    }
  }

  lemma {:induction false} AtMostIsTransitive(a: string, b: string, c: string)
    requires AtMost(a, b) && AtMost(b, c)
    ensures AtMost(a, c)
  {
    if a != "" && a[0] == b[0] == c[0] { AtMostIsTransitive(a[1..], b[1..], c[1..]); }
  }

  /** At position n, where a and b agree before, a has ended or has the smaller code point. */
  ghost predicate PartsAt(a: string, b: string, n: nat) {
    n <= |a| && n < |b| && a[..n] == b[..n] && (n == |a| || (a[n] as int) < b[n] as int)
  }

  /** a comes before b: it is the beginning of b, or has the smaller code point where they first differ. */
  ghost predicate ComesBefore(a: string, b: string) {
    exists n :: PartsAt(a, b, n)
  }

  /** The order is the lexicographic order by code points. */
  lemma {:induction false} AtMostIsLexicographic(a: string, b: string)
    ensures AtMost(a, b) <==> a == b || ComesBefore(a, b)
  {
    if a == "" || b == "" || a[0] != b[0] {
      assert ComesBefore(a, b) <==> PartsAt(a, b, 0) by {
        if n: nat :| PartsAt(a, b, n) { assert n == 0 || a[..n][0] == b[..n][0]; }
      }
    } else {
      AtMostIsLexicographic(a[1..], b[1..]);
      assert a == [a[0]] + a[1..] && b == [b[0]] + b[1..];
      PartsAfterHead(a, b);
    }
  }

  lemma PartsAfterHead(a: string, b: string)
    requires a != "" && b != "" && a[0] == b[0]
    ensures ComesBefore(a, b) <==> ComesBefore(a[1..], b[1..])
  {
    if n: nat :| PartsAt(a, b, n) {
      assert n > 0 && a[1..][..n - 1] == a[..n][1..] && b[1..][..n - 1] == b[..n][1..];
      assert PartsAt(a[1..], b[1..], n - 1);
    }
    if n: nat :| PartsAt(a[1..], b[1..], n) {
      assert a[..n + 1] == [a[0]] + a[1..][..n] && b[..n + 1] == [b[0]] + b[1..][..n];
      assert PartsAt(a, b, n + 1);
    }
  }

  // ---- Sorting entries by key

  type Entries<T> = seq<(string, T)>

  /** Put an entry before the first one whose key is not smaller. */
  function Insert<T>(e: (string, T), es: Entries<T>): Entries<T> {
    if es == [] || AtMost(e.0, es[0].0) then [e] + es else [es[0]] + Insert(e, es[1..])
  }

  /** The entries in order of their keys; entries with equal keys keep their order. */
  function Sort<T>(es: Entries<T>): Entries<T> {
    if es == [] then [] else Insert(es[0], Sort(es[1..]))
  }

  predicate Increasing<T>(es: Entries<T>) {
    forall i, j :: 0 <= i < j < |es| ==> es[i].0 != es[j].0 && AtMost(es[i].0, es[j].0)
  }

  predicate DistinctKeys<T>(es: Entries<T>) {
    forall i, j :: 0 <= i < j < |es| ==> es[i].0 != es[j].0
  }

  /** The entries as a map. */
  function ToMap<T>(es: Entries<T>): map<string, T> {
    if es == [] then map[] else ToMap(es[1..])[es[0].0 := es[0].1]
  }

  lemma {:induction false} ToMapKeys<T>(es: Entries<T>, k: string)
    ensures k in ToMap(es) <==> exists i :: 0 <= i < |es| && es[i].0 == k
  {
    if es != [] {
      ToMapKeys(es[1..], k);
      if k in ToMap(es[1..]) {
        var i :| 0 <= i < |es[1..]| && es[1..][i].0 == k;
        assert es[i + 1].0 == k;
      }
      if i :| 0 < i < |es| && es[i].0 == k { assert es[1..][i - 1].0 == k; }
    }
  }

  /** The first key of increasing entries comes before every key of the rest. */
  lemma HeadIsLeast<T>(es: Entries<T>, k: string)
    requires Increasing(es) && es != [] && k in ToMap(es[1..])
    ensures es[0].0 != k && AtMost(es[0].0, k)
  {
    ToMapKeys(es[1..], k);
    var i :| 0 <= i < |es[1..]| && es[1..][i].0 == k;
    assert es[i + 1].0 == k;
  }

  /** An entry whose key comes before all others can be put in front. */
  lemma PrependKeepsOrder<T>(e: (string, T), es: Entries<T>)
    requires Increasing(es) && forall k :: k in ToMap(es) ==> e.0 != k && AtMost(e.0, k)
    ensures Increasing([e] + es) && ToMap([e] + es) == ToMap(es)[e.0 := e.1]
  {
    assert ([e] + es)[1..] == es;
    forall i | 0 <= i < |es| ensures AtMost(e.0, es[i].0) && e.0 != es[i].0 { ToMapKeys(es, es[i].0); }
  }

  /** Inserting an entry with a new key adds it to the map and keeps the order. */
  lemma {:induction false} InsertKeepsOrder<T>(e: (string, T), es: Entries<T>)
    requires Increasing(es) && e.0 !in ToMap(es)
    ensures Increasing(Insert(e, es)) && ToMap(Insert(e, es)) == ToMap(es)[e.0 := e.1]
    ensures |Insert(e, es)| == |es| + 1
  {
    if es == [] {
      PrependKeepsOrder(e, es);
    } else {
      AtMostIsTotal(e.0, es[0].0);
      if AtMost(e.0, es[0].0) {
        forall k | k in ToMap(es) ensures e.0 != k && AtMost(e.0, k) {
          if k in ToMap(es[1..]) {
            HeadIsLeast(es, k);
            AtMostIsTransitive(e.0, es[0].0, k);
          }
        }
        PrependKeepsOrder(e, es);
      } else {
        InsertKeepsOrder(e, es[1..]);
        forall k | k in ToMap(Insert(e, es[1..])) ensures es[0].0 != k && AtMost(es[0].0, k) {
          if k != e.0 { HeadIsLeast(es, k); }
        }
        PrependKeepsOrder(es[0], Insert(e, es[1..]));
      }
    }
  }

  /** Sorting entries with distinct keys orders them and changes nothing else. */
  lemma {:induction false} SortSorts<T>(es: Entries<T>)
    requires DistinctKeys(es)
    ensures Increasing(Sort(es)) && ToMap(Sort(es)) == ToMap(es) && |Sort(es)| == |es|
  {
    if es != [] {
      SortSorts(es[1..]);
      ToMapKeys(es[1..], es[0].0);
      InsertKeepsOrder(es[0], Sort(es[1..]));
    }
  }

  /** In the sorted entries every key comes before all later ones, by code points. */
  lemma SortIsLexicographic<T>(es: Entries<T>)
    requires DistinctKeys(es)
    ensures |Sort(es)| == |es| && ToMap(Sort(es)) == ToMap(es)
    ensures forall i, j :: 0 <= i < j < |Sort(es)| ==> ComesBefore(Sort(es)[i].0, Sort(es)[j].0)
  {
    SortSorts(es);
    hide Sort, ToMap, ComesBefore, AtMost;
    forall i, j | 0 <= i < j < |Sort(es)| ensures ComesBefore(Sort(es)[i].0, Sort(es)[j].0) {
      AtMostIsLexicographic(Sort(es)[i].0, Sort(es)[j].0);
    }
  }

  lemma NonEmptyMap<T>(es: Entries<T>)
    ensures ToMap(es) == map[] <==> es == []
  {
    if es != [] { assert es[0].0 in ToMap(es); }
  }

  /** An increasing sequence of entries is determined by its map. */
  lemma {:induction false} IncreasingIsDetermined<T>(es: Entries<T>, fs: Entries<T>)
    requires Increasing(es) && Increasing(fs) && ToMap(es) == ToMap(fs)
    ensures es == fs
  {
    NonEmptyMap(es);
    NonEmptyMap(fs);
    if es != [] && fs != [] {
      SmallestKeyIsFirst(es, fs);
      SmallestKeyIsFirst(fs, es);
      AtMostIsTotal(es[0].0, fs[0].0);
      HeadIsNew(es);
      HeadIsNew(fs);
      assert ToMap(es[1..]) == ToMap(es) - {es[0].0};
      assert ToMap(fs[1..]) == ToMap(fs) - {fs[0].0};
      IncreasingIsDetermined(es[1..], fs[1..]);
      assert es[0].1 == ToMap(es)[es[0].0] && fs[0].1 == ToMap(fs)[es[0].0];
      assert es == [es[0]] + es[1..] && fs == [fs[0]] + fs[1..];
    }
  }

  lemma SmallestKeyIsFirst<T>(es: Entries<T>, fs: Entries<T>)
    requires Increasing(es) && es != [] && fs != [] && ToMap(es) == ToMap(fs)
    ensures AtMost(es[0].0, fs[0].0)
  {
    ToMapKeys(fs, fs[0].0);
    ToMapKeys(es, fs[0].0);
    var i :| 0 <= i < |es| && es[i].0 == fs[0].0;
    AtMostIsTotal(es[0].0, es[0].0);
  }

  lemma HeadIsNew<T>(es: Entries<T>)
    requires Increasing(es) && es != []
    ensures es[0].0 !in ToMap(es[1..])
  {
    ToMapKeys(es[1..], es[0].0);
  }

  // ---- Blank strings

  /** The Unicode White_Space characters. */
  predicate IsWhitespace(c: char) {
    || '\t' <= c <= '\r' || c == ' ' || c == '\U{85}' || c == '\U{A0}' || c == '\U{1680}'
    || '\U{2000}' <= c <= '\U{200A}' || c == '\U{2028}' || c == '\U{2029}' || c == '\U{202F}' || c == '\U{205F}'
    || c == '\U{3000}'
  }

  /** Nothing is left after trimming. */
  predicate IsBlank(s: string) {
    forall i :: 0 <= i < |s| ==> IsWhitespace(s[i])
  }

  const WHITESPACE := "\t\n\U{0B}\U{0C}\r \U{85}\U{A0}\U{1680}\U{2000}\U{2001}\U{2002}\U{2003}\U{2004}\U{2005}"
    + "\U{2006}\U{2007}\U{2008}\U{2009}\U{200A}\U{2028}\U{2029}\U{202F}\U{205F}\U{3000}"

  /** A string is blank exactly if it holds nothing but these 25 characters. */
  lemma BlankIsWhitespace(s: string)
    ensures IsBlank(s) <==> forall i :: 0 <= i < |s| ==> s[i] in WHITESPACE
  {
    forall c: char ensures IsWhitespace(c) <==> c in WHITESPACE { WhitespaceIsListed(c); }
  }

  lemma WhitespaceIsListed(c: char)
    ensures IsWhitespace(c) <==> c in WHITESPACE
  {
    var all := [WHITESPACE[0], WHITESPACE[1], WHITESPACE[2], WHITESPACE[3], WHITESPACE[4], WHITESPACE[5], WHITESPACE[6],
                WHITESPACE[7], WHITESPACE[8], WHITESPACE[9], WHITESPACE[10], WHITESPACE[11], WHITESPACE[12],
                WHITESPACE[13], WHITESPACE[14], WHITESPACE[15], WHITESPACE[16], WHITESPACE[17], WHITESPACE[18],
                WHITESPACE[19], WHITESPACE[20], WHITESPACE[21], WHITESPACE[22], WHITESPACE[23], WHITESPACE[24]];
    assert |WHITESPACE| == 25 && all == WHITESPACE;
  }
}
