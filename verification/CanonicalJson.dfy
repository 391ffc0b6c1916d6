/** The canonical JSON printer behind schema hashes: it ignores the order of object members and nothing else. */
module CanonicalJson {
  import opened Text

  /** A parsed JSON value. Members keep the order they were parsed in; a number is given by its rendering. */
  datatype Json =
    | Null
    | Bool(b: bool)
    | Number(rendering: string)
    | Str(s: string)
    | Arr(items: seq<Json>)
    | Obj(members: Entries<Json>)

  /** The same value with the order of members forgotten: what a JSON document means. */
  datatype Value =
    | VNull
    | VBool(b: bool)
    | VNumber(rendering: string)
    | VStr(s: string)
    | VArr(items: seq<Value>)
    | VObj(members: map<string, Value>)

  function Meaning(v: Json): Value {
    match v
    case Null => VNull
    case Bool(b) => VBool(b)
    case Number(n) => VNumber(n)
    case Str(s) => VStr(s)
    case Arr(items) => VArr(Meanings(items))
    case Obj(members) => VObj(ToMap(MemberMeanings(members)))
  }

  function Meanings(items: seq<Json>): seq<Value> {
    if items == [] then [] else [Meaning(items[0])] + Meanings(items[1..])
  }

  function MemberMeanings(members: Entries<Json>): Entries<Value> {
    if members == [] then []
    else
      var m := members[0];
      assert m decreases to m.1;
      [(m.0, Meaning(m.1))] + MemberMeanings(members[1..])
  }

  /** Numbers are rendered without delimiters. */
  predicate NumberChar(c: char) {
    '0' <= c <= '9' || c == '-' || c == '+' || c == '.' || c == 'e' || c == 'E'
  }

  /** What a JSON parser returns: keys are distinct within each object, and numbers are rendered as numbers. */
  predicate Parsed(v: Json) {
    match v
    case Number(n) => n != "" && forall i :: 0 <= i < |n| ==> NumberChar(n[i])
    case Arr(items) => forall i :: 0 <= i < |items| ==> Parsed(items[i])
    case Obj(members) => DistinctKeys(members) && forall i :: 0 <= i < |members| ==> Parsed(members[i].1)
    case _ => true
  }

  // ---- Printing

  function HexDigit(n: nat): char
    requires n < 16
  {
    "0123456789abcdef"[n]
  }

  /** A character inside a string literal (section 7 of RFC 8259): two-character escapes where they exist,
      six-character escapes for the other control characters, everything else as it is. */
  function Escape(c: char): string {
    if c == '"' then "\\\""
    else if c == '\\' then "\\\\"
    else if c == '\U{08}' then "\\b"
    else if c == '\t' then "\\t"
    else if c == '\n' then "\\n"
    else if c == '\U{0C}' then "\\f"
    else if c == '\r' then "\\r"
    else if c < ' ' then "\\u00" + [HexDigit(c as int / 16), HexDigit(c as int % 16)]
    else [c]
  }

  function EscapeAll(s: string): string {
    if s == "" then "" else Escape(s[0]) + EscapeAll(s[1..])
  }

  function Quote(s: string): string {
    "\"" + EscapeAll(s) + "\""
  }

  /** The parts joined by commas. */
  function Commas(parts: seq<string>): string {
    if parts == [] then ""
    else if |parts| == 1 then parts[0]
    else parts[0] + "," + Commas(parts[1..])
  }

  function Fields(entries: Entries<string>): seq<string> {
    if entries == [] then [] else [Quote(entries[0].0) + ":" + entries[0].1] + Fields(entries[1..])
  }

  /** The canonical text of a value: members in order of their keys, no whitespace. */
  function Print(v: Json): string {
    match v
    case Null => "null"
    case Bool(b) => if b then "true" else "false"
    case Number(n) => n
    case Str(s) => Quote(s)
    case Arr(items) => "[" + Commas(PrintAll(items)) + "]"
    case Obj(members) => "{" + Commas(Fields(Sort(PrintMembers(members)))) + "}"
  }

  function PrintAll(items: seq<Json>): seq<string> {
    if items == [] then [] else [Print(items[0])] + PrintAll(items[1..])
  }

  function PrintMembers(members: Entries<Json>): Entries<string> {
    if members == [] then []
    else
      var m := members[0];
      assert m decreases to m.1;
      [(m.0, Print(m.1))] + PrintMembers(members[1..])
  }

  // ---- The normal form: members sorted at every depth

  function Norm(v: Json): Json {
    match v
    case Arr(items) => Arr(NormAll(items))
    case Obj(members) => Obj(Sort(NormMembers(members)))
    case _ => v
  }

  function NormAll(items: seq<Json>): seq<Json> {
    if items == [] then [] else [Norm(items[0])] + NormAll(items[1..])
  }

  function NormMembers(members: Entries<Json>): Entries<Json> {
    if members == [] then []
    else
      var m := members[0];
      assert m decreases to m.1;
      [(m.0, Norm(m.1))] + NormMembers(members[1..])
  }

  /** The text of a value with its members in the order they have. */
  function Plain(v: Json): string {
    match v
    case Null => "null"
    case Bool(b) => if b then "true" else "false"
    case Number(n) => n
    case Str(s) => Quote(s)
    case Arr(items) => "[" + Commas(PlainAll(items)) + "]"
    case Obj(members) => "{" + Commas(Fields(PlainMembers(members))) + "}"
  }

  function PlainAll(items: seq<Json>): seq<string> {
    if items == [] then [] else [Plain(items[0])] + PlainAll(items[1..])
  }

  function PlainMembers(members: Entries<Json>): Entries<string> {
    if members == [] then []
    else
      var m := members[0];
      assert m decreases to m.1;
      [(m.0, Plain(m.1))] + PlainMembers(members[1..])
  }

  /** fs is es with g applied to every value. */
  ghost predicate Applied<A, B>(es: Entries<A>, g: A -> B, fs: Entries<B>) {
    && |fs| == |es|
    && forall i :: 0 <= i < |es| ==> fs[i] == (es[i].0, g(es[i].1))
  }

  lemma {:induction false} PlainMembersApplied(members: Entries<Json>)
    ensures Applied(members, Plain, PlainMembers(members))
  {
    if members != [] { PlainMembersApplied(members[1..]); }
  }

  lemma {:induction false} MeaningsApplied(members: Entries<Json>)
    ensures Applied(members, Meaning, MemberMeanings(members))
  {
    if members != [] { MeaningsApplied(members[1..]); }
  }

  lemma {:induction false} NormApplied(members: Entries<Json>)
    ensures Applied(members, Norm, NormMembers(members))
  {
    if members != [] { NormApplied(members[1..]); }
  }

  lemma {:induction false} InsertApplied<A, B>(e: (string, A), es: Entries<A>, g: A -> B, fs: Entries<B>)
    requires Applied(es, g, fs)
    ensures Applied(Insert(e, es), g, Insert((e.0, g(e.1)), fs))
  {
    if es != [] && !AtMost(e.0, es[0].0) { InsertApplied(e, es[1..], g, fs[1..]); }
  }

  /** Sorting looks at keys only. */
  lemma {:induction false} SortApplied<A, B>(es: Entries<A>, g: A -> B, fs: Entries<B>)
    requires Applied(es, g, fs)
    ensures Applied(Sort(es), g, Sort(fs))
  {
    if es != [] {
      SortApplied(es[1..], g, fs[1..]);
      InsertApplied(es[0], Sort(es[1..]), g, Sort(fs[1..]));
    }
  }

  lemma AppliedIsUnique<A, B>(es: Entries<A>, g: A -> B, fs: Entries<B>, hs: Entries<B>)
    requires Applied(es, g, fs) && Applied(es, g, hs)
    ensures fs == hs
  {
    assert forall i :: 0 <= i < |fs| ==> fs[i] == hs[i];
  }

  lemma AppliedKeepsKeys<A, B>(es: Entries<A>, g: A -> B, fs: Entries<B>)
    requires Applied(es, g, fs) && DistinctKeys(es)
    ensures DistinctKeys(fs)
  {
  }

  // ---- Printing is plain printing of the normal form

  lemma {:induction false} PrintIsPlainOfNorm(v: Json)
    ensures Print(v) == Plain(Norm(v))
  {
    match v
    case Arr(items) => PrintAllIsPlain(items);
    case Obj(members) =>
      var normed := NormMembers(members);
      PrintMembersIsPlain(members);
      PlainMembersApplied(normed);
      SortApplied(normed, Plain, PlainMembers(normed));
      PlainMembersApplied(Sort(normed));
      AppliedIsUnique(Sort(normed), Plain, PlainMembers(Sort(normed)), Sort(PlainMembers(normed)));
    case _ =>
  }

  lemma {:induction false} PrintAllIsPlain(items: seq<Json>)
    ensures PrintAll(items) == PlainAll(NormAll(items))
  {
    if items != [] {
      PrintIsPlainOfNorm(items[0]);
      PrintAllIsPlain(items[1..]);
    }
  }

  lemma {:induction false} PrintMembersIsPlain(members: Entries<Json>)
    ensures PrintMembers(members) == PlainMembers(NormMembers(members))
  {
    if members != [] {
      var m := members[0];
      assert m decreases to m.1;
      PrintIsPlainOfNorm(m.1);
      PrintMembersIsPlain(members[1..]);
    }
  }

  // ---- The normal form means the same, and is determined by the meaning

  lemma {:induction false} NormMeansTheSame(v: Json)
    requires Parsed(v)
    ensures Meaning(Norm(v)) == Meaning(v) && Parsed(Norm(v))
  {
    match v
    case Arr(items) => NormAllMeansTheSame(items);
    case Obj(members) =>
      var normed := NormMembers(members);
      NormMembersMeanTheSame(members);
      NormApplied(members);
      AppliedKeepsKeys(members, Norm, normed);
      SortSorts(normed);
      MeaningsApplied(normed);
      SortApplied(normed, Meaning, MemberMeanings(normed));
      MeaningsApplied(Sort(normed));
      AppliedIsUnique(Sort(normed), Meaning, MemberMeanings(Sort(normed)), Sort(MemberMeanings(normed)));
      AppliedKeepsKeys(normed, Meaning, MemberMeanings(normed));
      SortSorts(MemberMeanings(normed));
      SortKeepsValues(normed);
    case _ =>
  }

  lemma {:induction false} NormAllMeansTheSame(items: seq<Json>)
    requires forall i :: 0 <= i < |items| ==> Parsed(items[i])
    ensures Meanings(NormAll(items)) == Meanings(items)
    ensures forall i :: 0 <= i < |NormAll(items)| ==> Parsed(NormAll(items)[i])
  {
    if items != [] {
      NormMeansTheSame(items[0]);
      NormAllMeansTheSame(items[1..]);
    }
  }

  lemma {:induction false} NormMembersMeanTheSame(members: Entries<Json>)
    requires forall i :: 0 <= i < |members| ==> Parsed(members[i].1)
    ensures MemberMeanings(NormMembers(members)) == MemberMeanings(members)
    ensures forall i :: 0 <= i < |NormMembers(members)| ==> Parsed(NormMembers(members)[i].1)
  {
    if members != [] {
      var m := members[0];
      assert m decreases to m.1;
      NormMeansTheSame(m.1);
      NormMembersMeanTheSame(members[1..]);
    }
  }

  lemma {:induction false} InsertKeepsValues(e: (string, Json), es: Entries<Json>)
    requires Parsed(e.1) && forall i :: 0 <= i < |es| ==> Parsed(es[i].1)
    ensures forall i :: 0 <= i < |Insert(e, es)| ==> Parsed(Insert(e, es)[i].1)
  {
    if es != [] && !AtMost(e.0, es[0].0) { InsertKeepsValues(e, es[1..]); }
  }

  lemma {:induction false} SortKeepsValues(es: Entries<Json>)
    requires forall i :: 0 <= i < |es| ==> Parsed(es[i].1)
    ensures forall i :: 0 <= i < |Sort(es)| ==> Parsed(Sort(es)[i].1)
  {
    if es != [] {
      SortKeepsValues(es[1..]);
      InsertKeepsValues(es[0], Sort(es[1..]));
    }
  }

  lemma {:induction false} ToMapAt<T>(es: Entries<T>, i: nat)
    requires DistinctKeys(es) && i < |es|
    ensures es[i].0 in ToMap(es) && ToMap(es)[es[i].0] == es[i].1
  {
    if i > 0 { ToMapAt(es[1..], i - 1); }
  }

  lemma MeaningsAgree(ms: Entries<Json>, ns: Entries<Json>, k: string) returns (i: nat, j: nat)
    requires DistinctKeys(ms) && DistinctKeys(ns)
    requires ToMap(MemberMeanings(ms)) == ToMap(MemberMeanings(ns))
    requires k in ToMap(NormMembers(ms))
    ensures i < |ms| && j < |ns| && ms[i].0 == ns[j].0 == k && Meaning(ms[i].1) == Meaning(ns[j].1)
  {
    var xs, ys := MemberMeanings(ms), MemberMeanings(ns);
    NormApplied(ms);
    MeaningsApplied(ms);
    MeaningsApplied(ns);
    AppliedKeepsKeys(ms, Meaning, xs);
    AppliedKeepsKeys(ns, Meaning, ys);
    ToMapKeys(NormMembers(ms), k);
    i :| 0 <= i < |ms| && NormMembers(ms)[i].0 == k;
    ToMapAt(xs, i);
    ToMapKeys(ys, k);
    j :| 0 <= j < |ys| && ys[j].0 == k;
    ToMapAt(ys, j);
  }

  lemma NormAt(ms: Entries<Json>, i: nat)
    requires DistinctKeys(ms) && i < |ms|
    ensures ms[i].0 in ToMap(NormMembers(ms)) && ToMap(NormMembers(ms))[ms[i].0] == Norm(ms[i].1)
  {
    NormApplied(ms);
    AppliedKeepsKeys(ms, Norm, NormMembers(ms));
    ToMapAt(NormMembers(ms), i);
  }

  /** The normal form is determined by the meaning. */
  lemma {:induction false} MeaningDeterminesNorm(v: Json, w: Json)
    requires Parsed(v) && Parsed(w) && Meaning(v) == Meaning(w)
    ensures Norm(v) == Norm(w)
    decreases v
  {
    match v
    case Arr(items) => MeaningsDetermineNorms(items, w.items);
    case Obj(members) => MeaningsDetermineMembers(members, w.members);
    case _ =>
  }

  lemma {:induction false} MeaningsDetermineNorms(items: seq<Json>, others: seq<Json>)
    requires (forall i :: 0 <= i < |items| ==> Parsed(items[i]))
    requires (forall i :: 0 <= i < |others| ==> Parsed(others[i]))
    requires Meanings(items) == Meanings(others)
    ensures NormAll(items) == NormAll(others)
    decreases items
  {
    if items != [] && others != [] {
      assert Meanings(items)[0] == Meanings(others)[0] && Meanings(items)[1..] == Meanings(others)[1..];
      assert Meanings(items)[1..] == Meanings(items[1..]) && Meanings(others)[1..] == Meanings(others[1..]);
      MeaningDeterminesNorm(items[0], others[0]);
      MeaningsDetermineNorms(items[1..], others[1..]);
    }
  }

  lemma {:induction false} MeaningsDetermineMembers(ms: Entries<Json>, ns: Entries<Json>)
    requires Parsed(Obj(ms)) && Parsed(Obj(ns)) && ToMap(MemberMeanings(ms)) == ToMap(MemberMeanings(ns))
    ensures Sort(NormMembers(ms)) == Sort(NormMembers(ns))
    decreases ms
  {
    var xs, ys := NormMembers(ms), NormMembers(ns);
    forall k | k in ToMap(xs) ensures k in ToMap(ys) && ToMap(ys)[k] == ToMap(xs)[k] {
      var i, j := MeaningsAgree(ms, ns, k);
      var m := ms[i];
      assert m decreases to m.1;
      MeaningDeterminesNorm(m.1, ns[j].1);
      NormAt(ms, i);
      NormAt(ns, j);
    }
    forall k | k in ToMap(ys) ensures k in ToMap(xs) {
      var i, j := MeaningsAgree(ns, ms, k);
      NormAt(ms, j);
    }
    assert ToMap(xs) == ToMap(ys);
    NormApplied(ms);
    NormApplied(ns);
    AppliedKeepsKeys(ms, Norm, xs);
    AppliedKeepsKeys(ns, Norm, ys);
    SortSorts(xs);
    SortSorts(ys);
    IncreasingIsDetermined(Sort(xs), Sort(ys));
  }

  // ---- Plain printing can be read back

  /** What may follow a value. */
  predicate Delimited(rest: string) {
    rest == "" || rest[0] == ',' || rest[0] == ']' || rest[0] == '}'
  }

  lemma HexIsInjective(a: nat, b: nat)
    requires a < 16 && b < 16 && HexDigit(a) == HexDigit(b)
    ensures a == b
  {
  }

  lemma EscapeIsInjective(c: char, d: char)
    requires Escape(c) == Escape(d)
    ensures c == d
  {
    if |Escape(c)| == 6 {
      assert Escape(c)[4] == Escape(d)[4] && Escape(c)[5] == Escape(d)[5];
      HexIsInjective(c as int / 16, d as int / 16);
      HexIsInjective(c as int % 16, d as int % 16);
    } else if |Escape(c)| == 2 {
      assert Escape(c)[1] == Escape(d)[1];
    } else {
      assert Escape(c)[0] == Escape(d)[0];
    }
  }

  /** The first two characters tell how long an escape is. */
  lemma EscapeLength(c: char)
    ensures |Escape(c)| == 1 || |Escape(c)| == 2 || |Escape(c)| == 6
    ensures |Escape(c)| == 1 <==> Escape(c)[0] != '\\'
    ensures |Escape(c)| > 1 ==> (|Escape(c)| == 6 <==> Escape(c)[1] == 'u')
  {
  }

  /** The escape of a character ends where it ends: no escape is the beginning of another. */
  lemma EscapesAreApart(c: char, d: char, x: string, y: string)
    requires Escape(c) + x == Escape(d) + y
    ensures c == d && x == y
  {
    EscapeLength(c);
    EscapeLength(d);
    hide Escape;
    var s, t := Escape(c) + x, Escape(d) + y;
    assert s[0] == Escape(c)[0] && t[0] == Escape(d)[0];
    assert |Escape(c)| > 1 ==> s[1] == Escape(c)[1];
    assert |Escape(d)| > 1 ==> t[1] == Escape(d)[1];
    assert Escape(c) == s[..|Escape(c)|] && Escape(d) == t[..|Escape(d)|];
    EscapeIsInjective(c, d);
    StripSame(Escape(c), x, y);
  }

  lemma EscapeIsNotQuote(c: char)
    ensures |Escape(c)| > 0 && Escape(c)[0] != '"'
  {
  }

  lemma StartsWithQuoteIfEmpty(s: string, x: string)
    ensures var a := EscapeAll(s) + "\"" + x; |a| > 0 && (a[0] == '"' <==> s == "")
  {
    if s != "" { EscapeIsNotQuote(s[0]); }
  }

  lemma {:induction false} EscapedStringsAreApart(s: string, t: string, x: string, y: string)
    requires EscapeAll(s) + "\"" + x == EscapeAll(t) + "\"" + y
    ensures s == t && x == y
  {
    hide Escape;
    var a, b := EscapeAll(s) + "\"" + x, EscapeAll(t) + "\"" + y;
    StartsWithQuoteIfEmpty(s, x);
    StartsWithQuoteIfEmpty(t, y);
    if s == "" && t == "" {
      assert x == a[1..] && y == b[1..];
    } else {
      var more, less := EscapeAll(s[1..]) + "\"" + x, EscapeAll(t[1..]) + "\"" + y;
      assert a == Escape(s[0]) + more && b == Escape(t[0]) + less;
      EscapesAreApart(s[0], t[0], more, less);
      EscapedStringsAreApart(s[1..], t[1..], x, y);
      assert s == [s[0]] + s[1..] && t == [t[0]] + t[1..];
    }
  }

  lemma QuotesAreApart(s: string, t: string, x: string, y: string)
    requires Quote(s) + x == Quote(t) + y
    ensures s == t && x == y
  {
    hide EscapeAll;
    Rebracket("\"", EscapeAll(s), "\"", x);
    Rebracket("\"", EscapeAll(t), "\"", y);
    StripSame("\"", EscapeAll(s) + ("\"" + x), EscapeAll(t) + ("\"" + y));
    Rejoin(EscapeAll(s), "\"", x);
    Rejoin(EscapeAll(t), "\"", y);
    EscapedStringsAreApart(s, t, x, y);
  }

  /** Position k of a number and what follows holds a number character exactly when it is in the number. */
  lemma StopsAtDelimiter(n: string, rest: string, k: nat)
    requires (forall i :: 0 <= i < |n| ==> NumberChar(n[i])) && Delimited(rest)
    ensures k < |n| ==> NumberChar((n + rest)[k])
    ensures k == |n| < |n + rest| ==> !NumberChar((n + rest)[k])
  {
  }

  lemma {:induction false} NumbersAreApart(m: string, n: string, x: string, y: string)
    requires forall i :: 0 <= i < |m| ==> NumberChar(m[i])
    requires forall i :: 0 <= i < |n| ==> NumberChar(n[i])
    requires m + x == n + y && Delimited(x) && Delimited(y)
    ensures m == n && x == y
  {
    StopsAtDelimiter(m, x, |n|);
    StopsAtDelimiter(n, y, |m|);
    if |m| == |n| {
      assert m == (m + x)[..|m|] && n == (n + y)[..|n|] && x == (m + x)[|m|..] && y == (n + y)[|n|..];
    }
  }

  /** What follows the first of several parts. */
  function After(parts: seq<string>, rest: string): string {
    if parts == [] then rest else "," + (Commas(parts) + rest)
  }

  lemma CommasSplit(parts: seq<string>, rest: string)
    requires parts != []
    ensures Commas(parts) + rest == parts[0] + After(parts[1..], rest)
  {
    if |parts| > 1 { Rebracket(parts[0], ",", Commas(parts[1..]), rest); }
  }

  /** The first character of a value's text tells what kind of value it is. */
  predicate StartsAs(v: Json, c: char) {
    match v
    case Null => c == 'n'
    case Bool(b) => c == if b then 't' else 'f'
    case Number(_) => NumberChar(c)
    case Str(_) => c == '"'
    case Arr(_) => c == '['
    case Obj(_) => c == '{'
  }

  lemma FirstCharacter(v: Json)
    requires Parsed(v)
    ensures Plain(v) != "" && StartsAs(v, Plain(v)[0])
  {
  }

  lemma SameFirst(p: string, q: string, x: string, y: string)
    requires p + x == q + y && p != "" && q != ""
    ensures p[0] == q[0]
  {
    assert (p + x)[0] == p[0] && (q + y)[0] == q[0];
  }

  lemma StripSame(p: string, x: string, y: string)
    requires p + x == p + y
    ensures x == y
  {
    assert x == (p + x)[|p|..] && y == (p + y)[|p|..];
  }

  lemma Rebracket(open: string, body: string, close: string, rest: string)
    ensures open + body + close + rest == open + (body + (close + rest))
  {
  }

  lemma Rejoin(a: string, b: string, c: string)
    ensures a + (b + c) == a + b + c
  {
  }

  /** A value's text can be read back, whatever delimiter follows it. */
  lemma {:induction false} ValuesAreApart(v: Json, w: Json, x: string, y: string)
    requires Parsed(v) && Parsed(w) && Delimited(x) && Delimited(y)
    requires Plain(v) + x == Plain(w) + y
    ensures v == w && x == y
    decreases v, 1
  {
    FirstCharacter(v);
    FirstCharacter(w);
    SameFirst(Plain(v), Plain(w), x, y);
    match v
    case Number(n) => NumbersAreApart(n, w.rendering, x, y);
    case Str(s) => QuotesAreApart(s, w.s, x, y);
    case Arr(items) => ArraysAreApart(items, w.items, x, y);
    case Obj(members) => ObjectsAreApart(members, w.members, x, y);
    case _ => StripSame(Plain(v), x, y);
  }

  lemma {:induction false} ArraysAreApart(items: seq<Json>, others: seq<Json>, x: string, y: string)
    requires Parsed(Arr(items)) && Parsed(Arr(others))
    requires Plain(Arr(items)) + x == Plain(Arr(others)) + y
    ensures items == others && x == y
    decreases items, 1
  {
    var a, b := Commas(PlainAll(items)), Commas(PlainAll(others));
    Rebracket("[", a, "]", x);
    Rebracket("[", b, "]", y);
    StripSame("[", a + ("]" + x), b + ("]" + y));
    hide Plain, PlainAll;
    ItemsAreApart(items, others, "]" + x, "]" + y);
    StripSame("]", x, y);
  }

  lemma PlainAllAt(items: seq<Json>)
    requires items != []
    ensures PlainAll(items) != [] && PlainAll(items)[0] == Plain(items[0])
    ensures PlainAll(items)[1..] == PlainAll(items[1..])
  {
  }

  lemma FirstOfItems(items: seq<Json>, rest: string)
    requires Parsed(Arr(items)) && rest != "" && rest[0] == ']'
    ensures var t := Commas(PlainAll(items)) + rest; t != "" && (t[0] == ']' <==> items == [])
  {
    if items != [] {
      PlainAllAt(items);
      CommasSplit(PlainAll(items), rest);
      FirstCharacter(items[0]);
      hide Plain, PlainAll, Commas;
    }
  }

  lemma {:induction false} ItemsAreApart(items: seq<Json>, others: seq<Json>, x: string, y: string)
    requires Parsed(Arr(items)) && Parsed(Arr(others))
    requires x != "" && x[0] == ']' && y != "" && y[0] == ']'
    requires Commas(PlainAll(items)) + x == Commas(PlainAll(others)) + y
    ensures items == others && x == y
    decreases items, 0
  {
    FirstOfItems(items, x);
    FirstOfItems(others, y);
    if items == [] || others == [] {
      assert Commas([]) + x == x && Commas([]) + y == y;
    } else {
      PlainAllAt(items);
      PlainAllAt(others);
      CommasSplit(PlainAll(items), x);
      CommasSplit(PlainAll(others), y);
      hide Plain, PlainAll, Commas;
      var more, less := After(PlainAll(items[1..]), x), After(PlainAll(others[1..]), y);
      assert items[0] in items && others[0] in others;
      ValuesAreApart(items[0], others[0], more, less);
      RestOfItemsApart(items, others, x, y);
    }
  }

  lemma {:induction false} RestOfItemsApart(items: seq<Json>, others: seq<Json>, x: string, y: string)
    requires items != [] && others != [] && Parsed(Arr(items)) && Parsed(Arr(others)) && items[0] == others[0]
    requires x != "" && x[0] == ']' && y != "" && y[0] == ']'
    requires After(PlainAll(items[1..]), x) == After(PlainAll(others[1..]), y)
    ensures items == others && x == y
    decreases items[1..], 1
  {
    var more, less := items[1..], others[1..];
    assert (PlainAll(more) == [] <==> more == []) && (PlainAll(less) == [] <==> less == []);
    if more != [] && less != [] {
      StripSame(",", Commas(PlainAll(more)) + x, Commas(PlainAll(less)) + y);
      ItemsAreApart(more, less, x, y);
    } else {
      assert more == [] <==> After(PlainAll(more), x)[0] == ']';
      assert less == [] <==> After(PlainAll(less), y)[0] == ']';
    }
    assert items == [items[0]] + more && others == [others[0]] + less;
  }

  function FieldsOf(members: Entries<Json>): seq<string> {
    Fields(PlainMembers(members))
  }

  lemma {:induction false} ObjectsAreApart(ms: Entries<Json>, ns: Entries<Json>, x: string, y: string)
    requires Parsed(Obj(ms)) && Parsed(Obj(ns))
    requires Plain(Obj(ms)) + x == Plain(Obj(ns)) + y
    ensures ms == ns && x == y
    decreases ms, 1
  {
    var a, b := Commas(FieldsOf(ms)), Commas(FieldsOf(ns));
    assert Plain(Obj(ms)) == "{" + a + "}" && Plain(Obj(ns)) == "{" + b + "}";
    hide Plain, FieldsOf, Commas, Parsed;
    Rebracket("{", a, "}", x);
    Rebracket("{", b, "}", y);
    StripSame("{", a + ("}" + x), b + ("}" + y));
    MembersAreApart(ms, ns, "}" + x, "}" + y);
    StripSame("}", x, y);
  }

  lemma FieldsAt(members: Entries<Json>)
    requires members != []
    ensures var fields := FieldsOf(members);
      && fields != [] && fields[1..] == FieldsOf(members[1..])
      && fields[0] == Quote(members[0].0) + ":" + Plain(members[0].1)
  {
  }

  lemma FirstOfFields(members: Entries<Json>, rest: string)
    requires rest != "" && rest[0] == '}'
    ensures var t := Commas(FieldsOf(members)) + rest; t != "" && (t[0] == '}' <==> members == [])
  {
    if members != [] {
      FieldsAt(members);
      CommasSplit(FieldsOf(members), rest);
      hide Plain, Commas, FieldsOf;
    }
  }

  lemma {:induction false} MembersAreApart(ms: Entries<Json>, ns: Entries<Json>, x: string, y: string)
    requires Parsed(Obj(ms)) && Parsed(Obj(ns))
    requires x != "" && x[0] == '}' && y != "" && y[0] == '}'
    requires Commas(FieldsOf(ms)) + x == Commas(FieldsOf(ns)) + y
    ensures ms == ns && x == y
    decreases ms, 0
  {
    FirstOfFields(ms, x);
    FirstOfFields(ns, y);
    if ms == [] || ns == [] {
      assert Commas([]) + x == x && Commas([]) + y == y;
    } else {
      FieldsAt(ms);
      FieldsAt(ns);
      CommasSplit(FieldsOf(ms), x);
      CommasSplit(FieldsOf(ns), y);
      hide Plain, Commas, Quote, FieldsOf;
      var m, n := ms[0], ns[0];
      var more, less := After(FieldsOf(ms[1..]), x), After(FieldsOf(ns[1..]), y);
      FieldSplit(m.0, Plain(m.1), more);
      FieldSplit(n.0, Plain(n.1), less);
      QuotesAreApart(m.0, n.0, ":" + (Plain(m.1) + more), ":" + (Plain(n.1) + less));
      StripSame(":", Plain(m.1) + more, Plain(n.1) + less);
      assert m decreases to m.1;
      ValuesAreApart(m.1, n.1, more, less);
      RestOfMembersApart(ms, ns, x, y);
    }
  }

  lemma FieldSplit(key: string, value: string, rest: string)
    ensures (Quote(key) + ":" + value) + rest == Quote(key) + (":" + (value + rest))
  {
  }

  lemma {:induction false} RestOfMembersApart(ms: Entries<Json>, ns: Entries<Json>, x: string, y: string)
    requires ms != [] && ns != [] && Parsed(Obj(ms)) && Parsed(Obj(ns)) && ms[0] == ns[0]
    requires x != "" && x[0] == '}' && y != "" && y[0] == '}'
    requires After(FieldsOf(ms[1..]), x) == After(FieldsOf(ns[1..]), y)
    ensures ms == ns && x == y
    decreases ms[1..], 1
  {
    var more, less := ms[1..], ns[1..];
    assert (FieldsOf(more) == [] <==> more == []) && (FieldsOf(less) == [] <==> less == []);
    hide FieldsOf;
    if more != [] && less != [] {
      StripSame(",", Commas(FieldsOf(more)) + x, Commas(FieldsOf(less)) + y);
      MembersAreApart(more, less, x, y);
    } else {
      assert more == [] <==> After(FieldsOf(more), x)[0] == '}';
      assert less == [] <==> After(FieldsOf(less), y)[0] == '}';
    }
    assert ms == [ms[0]] + more && ns == [ns[0]] + less;
  }

  // ---- Main results

  /** Canonical printing ignores the order of members at every depth, and nothing else: two values have the same text
      exactly when they mean the same. */
  lemma CanonicalTextIsTheMeaning(v: Json, w: Json)
    requires Parsed(v) && Parsed(w)
    ensures Print(v) == Print(w) <==> Meaning(v) == Meaning(w)
  {
    PrintIsPlainOfNorm(v);
    PrintIsPlainOfNorm(w);
    NormMeansTheSame(v);
    NormMeansTheSame(w);
    hide Print, Plain, Parsed, Norm, Meaning;
    if Print(v) == Print(w) {
      assert Plain(Norm(v)) + "" == Plain(Norm(w)) + "";
      ValuesAreApart(Norm(v), Norm(w), "", "");
    }
    if Meaning(v) == Meaning(w) { MeaningDeterminesNorm(v, w); }
  }

  /** Reordering the members of an object does not change its text, and so not the hash of the text either. */
  lemma ReorderedMembersPrintAlike(ms: Entries<Json>, ns: Entries<Json>)
    requires Parsed(Obj(ms)) && Parsed(Obj(ns)) && multiset(ms) == multiset(ns)
    ensures Print(Obj(ms)) == Print(Obj(ns))
  {
    forall k | k in ToMap(MemberMeanings(ms)) || k in ToMap(MemberMeanings(ns))
      ensures k in ToMap(MemberMeanings(ms)) && k in ToMap(MemberMeanings(ns))
      ensures ToMap(MemberMeanings(ms))[k] == ToMap(MemberMeanings(ns))[k]
    {
      if k in ToMap(MemberMeanings(ms)) { SharedMember(ms, ns, k); } else { SharedMember(ns, ms, k); }
    }
    assert ToMap(MemberMeanings(ms)) == ToMap(MemberMeanings(ns));
    hide Print, Parsed;
    CanonicalTextIsTheMeaning(Obj(ms), Obj(ns));
  }

  lemma SharedMember(ms: Entries<Json>, ns: Entries<Json>, k: string)
    requires DistinctKeys(ms) && DistinctKeys(ns) && multiset(ms) == multiset(ns) && k in ToMap(MemberMeanings(ms))
    ensures k in ToMap(MemberMeanings(ns)) && ToMap(MemberMeanings(ms))[k] == ToMap(MemberMeanings(ns))[k]
  {
    var xs, ys := MemberMeanings(ms), MemberMeanings(ns);
    MeaningsApplied(ms);
    MeaningsApplied(ns);
    AppliedKeepsKeys(ms, Meaning, xs);
    AppliedKeepsKeys(ns, Meaning, ys);
    ToMapKeys(xs, k);
    var i :| 0 <= i < |ms| && xs[i].0 == k;
    assert ms[i] in multiset(ms) && ms[i] in ns;
    var j :| 0 <= j < |ns| && ns[j] == ms[i];
    ToMapAt(xs, i);
    ToMapAt(ys, j);
  }

  // ---- The text itself

  lemma {:induction false} PrintedApplied(members: Entries<Json>)
    ensures Applied(members, Print, PrintMembers(members))
  {
    if members != [] { PrintedApplied(members[1..]); }
  }

  /** An object is written with its members in lexicographic order of their keys, by code points, and nothing else
      changed: written is what stands between the braces. */
  lemma MembersAreWrittenInOrder(members: Entries<Json>) returns (written: Entries<string>)
    requires DistinctKeys(members)
    ensures Print(Obj(members)) == "{" + Commas(Fields(written)) + "}"
    ensures |written| == |members| && ToMap(written) == ToMap(PrintMembers(members))
    ensures forall i, j :: 0 <= i < j < |written| ==> ComesBefore(written[i].0, written[j].0)
  {
    hide Sort, ComesBefore, Commas, Fields;
    var printed := PrintMembers(members);
    PrintedApplied(members);
    AppliedKeepsKeys(members, Print, printed);
    SortIsLexicographic(printed);
    written := Sort(printed);
  }

  /** The characters with an escape of their own, and the letters that stand for them. */
  const ESCAPED := ['"', '\\', '\U{08}', '\t', '\n', '\U{0C}', '\r']
  const LETTERS := ['"', '\\', 'b', 't', 'n', 'f', 'r']

  function HexValue(c: char): nat {
    if '0' <= c <= '9' then c as int - '0' as int else if 'a' <= c <= 'f' then c as int - 'a' as int + 10 else 0
  }

  /** How a character is written in a string: seven characters as a backslash and a letter, other control characters as
      a backslash, u and four lower-case hexadecimal digits, and every other one as itself. */
  lemma EscapesAreStandard(c: char)
    ensures |ESCAPED| == |LETTERS| == 7
    ensures forall i :: 0 <= i < 7 && ESCAPED[i] == c ==> Escape(c) == ['\\', LETTERS[i]]
    ensures c !in ESCAPED && (c as int) < 32 ==>
      && |Escape(c)| == 6 && Escape(c)[..4] == ['\\', 'u', '0', '0']
      && (forall i :: 4 <= i < 6 ==> '0' <= Escape(c)[i] <= '9' || 'a' <= Escape(c)[i] <= 'f')
      && HexValue(Escape(c)[4]) * 16 + HexValue(Escape(c)[5]) == c as int
    ensures c !in ESCAPED && c as int >= 32 ==> Escape(c) == [c]
  {
    if c !in ESCAPED && (c as int) < 32 {
      HexDigitsAreValues(c as int / 16);
      HexDigitsAreValues(c as int % 16);
      hide HexDigit, HexValue;
      NotEscaped(c);
      assert "\\u00" == ['\\', 'u', '0', '0'];
    } else if c !in ESCAPED {
      NotEscaped(c);
    }
  }

  lemma NotEscaped(c: char)
    requires c !in ESCAPED
    ensures c != '"' && c != '\\' && c != '\U{08}' && c != '\t' && c != '\n' && c != '\U{0C}' && c != '\r'
  {
    assert ESCAPED[0] in ESCAPED && ESCAPED[1] in ESCAPED && ESCAPED[2] in ESCAPED && ESCAPED[3] in ESCAPED;
    assert ESCAPED[4] in ESCAPED && ESCAPED[5] in ESCAPED && ESCAPED[6] in ESCAPED;
  }

  lemma HexDigitsAreValues(n: nat)
    requires n < 16
    ensures HexValue(HexDigit(n)) == n && ('0' <= HexDigit(n) <= '9' || 'a' <= HexDigit(n) <= 'f')
  {
  }

  /** Strings are written character by character. */
  lemma {:induction false} EscapesJoin(s: string, t: string)
    ensures EscapeAll(s + t) == EscapeAll(s) + EscapeAll(t)
  {
    hide Escape;
    if s == "" {
      assert s + t == t;
    } else {
      EscapesJoin(s[1..], t);
      assert (s + t)[1..] == s[1..] + t;
      assert EscapeAll(s + t) == Escape(s[0]) + EscapeAll(s[1..] + t);
      hide EscapeAll;
      assert Escape(s[0]) + (EscapeAll(s[1..]) + EscapeAll(t)) == Escape(s[0]) + EscapeAll(s[1..]) + EscapeAll(t);
    }
  }

  lemma OneCharacter(c: char)
    ensures EscapeAll([c]) == Escape(c)
  {
    hide Escape;
    assert [c][1..] == "";
  }

  /** Lists are written one after the other with a comma between. */
  lemma {:induction false} CommasJoin(a: seq<string>, b: seq<string>)
    requires a != [] && b != []
    ensures Commas(a + b) == Commas(a) + "," + Commas(b)
  {
    assert (a + b)[1..] == a[1..] + b;
    if |a| == 1 {
      assert a[1..] + b == b;
    } else {
      CommasJoin(a[1..], b);
    }
  }

  lemma FieldsFirst(a: Entries<string>)
    ensures Fields([]) == []
    ensures a != [] ==> Fields(a) == [Quote(a[0].0) + ":" + a[0].1] + Fields(a[1..])
  {
    hide Quote;
  }

  lemma {:induction false} FieldsJoin(a: Entries<string>, b: Entries<string>)
    ensures Fields(a + b) == Fields(a) + Fields(b)
  {
    hide Fields, Quote;
    FieldsFirst(a);
    if a == [] {
      assert a + b == b;
    } else {
      FieldsJoin(a[1..], b);
      FieldsFirst(a + b);
      assert (a + b)[1..] == a[1..] + b;
    }
  }

  lemma {:induction false} PrintAllJoin(a: seq<Json>, b: seq<Json>)
    ensures PrintAll(a + b) == PrintAll(a) + PrintAll(b)
  {
    hide Print;
    if a == [] {
      assert a + b == b;
    } else {
      PrintAllJoin(a[1..], b);
      assert (a + b)[1..] == a[1..] + b;
    }
  }

  lemma OneField(key: string, text: string)
    ensures Fields([(key, text)]) == ["\"" + EscapeAll(key) + "\":" + text]
  {
    hide EscapeAll;
    assert [(key, text)][1..] == [] && Fields([]) == [];
    assert "\"" + EscapeAll(key) + "\"" + ":" + text == "\"" + EscapeAll(key) + "\":" + text;
  }

  lemma OneItem(v: Json)
    ensures Print(Arr([v])) == "[" + Print(v) + "]"
  {
    assert [v][1..] == [] && PrintAll([v][1..]) == [] && PrintAll([v]) == [Print(v)];
    hide PrintAll;
  }

  lemma OneSorted(key: string, text: string)
    ensures Sort([(key, text)]) == [(key, text)]
  {
    assert [(key, text)][1..] == [] && Sort([(key, text)][1..]) == [];
  }

  lemma OnePrinted(key: string, v: Json)
    ensures PrintMembers([(key, v)]) == [(key, Print(v))]
  {
    hide Print;
    assert [(key, v)][1..] == [] && PrintMembers([(key, v)][1..]) == [];
  }

  lemma OneMember(key: string, v: Json)
    ensures Print(Obj([(key, v)])) == "{" + ("\"" + EscapeAll(key) + "\":" + Print(v)) + "}"
  {
    hide EscapeAll, Sort, Fields, PrintMembers, Quote;
    OnePrinted(key, v);
    OneSorted(key, Print(v));
    OneField(key, Print(v));
  }

  /** The text of the smallest values, without whitespace; with the laws above, the text of every value. */
  lemma SmallTexts(v: Json, key: string, s: string)
    ensures Print(Null) == "null" && Print(Bool(true)) == "true" && Print(Bool(false)) == "false"
    ensures Print(Number(s)) == s && Print(Str(s)) == "\"" + EscapeAll(s) + "\""
    ensures Print(Arr([])) == "[]" && Print(Arr([v])) == "[" + Print(v) + "]"
    ensures Print(Obj([])) == "{}" && Print(Obj([(key, v)])) == "{" + ("\"" + EscapeAll(key) + "\":" + Print(v)) + "}"
  {
    OneItem(v);
    OneMember(key, v);
    hide EscapeAll;
  }
}
