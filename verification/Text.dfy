/** Strings: trimming, joining, splitting and abstract case mapping. */
module Text {

  /** The code points removed by JavaScript's String.prototype.trim. */
  predicate IsSpace(c: char) {
    '\t' <= c <= '\r' || c == ' ' || c == '\U{00a0}' || c == '\U{1680}'
    || '\U{2000}' <= c <= '\U{200a}' || c == '\U{2028}' || c == '\U{2029}'
    || c == '\U{202f}' || c == '\U{205f}' || c == '\U{3000}' || c == '\U{feff}'
  }

  function TrimStart(drop: char -> bool, s: string): string {
    if s != "" && drop(s[0]) then TrimStart(drop, s[1..]) else s
  }

  function TrimEnd(drop: char -> bool, s: string): string {
    if s != "" && drop(s[|s| - 1]) then TrimEnd(drop, s[..|s| - 1]) else s
  }

  function TrimBy(drop: char -> bool, s: string): string {
    TrimEnd(drop, TrimStart(drop, s))
  }

  function Trim(s: string): string {
    TrimBy(IsSpace, s)
  }

  predicate CleanEdges(drop: char -> bool, s: string) {
    s == "" || (!drop(s[0]) && !drop(s[|s| - 1]))
  }

  lemma {:induction false} TrimEndShape(drop: char -> bool, s: string)
    ensures TrimEnd(drop, s) <= s
    ensures TrimEnd(drop, s) == "" || !drop(TrimEnd(drop, s)[|TrimEnd(drop, s)| - 1])
  {
    if s != "" && drop(s[|s| - 1]) { TrimEndShape(drop, s[..|s| - 1]); }
  }

  /** The number of leading characters that are dropped. */
  function Leading(drop: char -> bool, s: string): (n: nat)
    ensures n <= |s|
  {
    if s != "" && drop(s[0]) then 1 + Leading(drop, s[1..]) else 0
  }

  lemma {:induction false} TrimStartShape(drop: char -> bool, s: string)
    ensures TrimStart(drop, s) == s[Leading(drop, s)..]
    ensures TrimStart(drop, s) == "" || !drop(TrimStart(drop, s)[0])
  {
    if s != "" && drop(s[0]) {
      TrimStartShape(drop, s[1..]);
      assert s[1..][Leading(drop, s[1..])..] == s[Leading(drop, s)..];
    }
  }

  /** Trimming leaves a substring with clean edges. */
  lemma TrimShape(drop: char -> bool, s: string)
    ensures CleanEdges(drop, TrimBy(drop, s))
    ensures forall c :: c in TrimBy(drop, s) ==> c in s
    ensures CleanEdges(drop, s) ==> TrimBy(drop, s) == s
  {
    var t := TrimStart(drop, s);
    var e := TrimEnd(drop, t);
    TrimStartShape(drop, s);
    TrimEndShape(drop, t);
    if CleanEdges(drop, s) { TrimFixed(drop, s); }
    hide TrimStart, TrimEnd;
    var k := Leading(drop, s);
    forall c | c in e ensures c in s {
      var i :| 0 <= i < |e| && e[i] == c;
      assert s[k + i] == t[i] == e[i];
    }
  }

  lemma TrimFixed(drop: char -> bool, s: string)
    requires CleanEdges(drop, s)
    ensures TrimStart(drop, s) == s && TrimEnd(drop, s) == s
  {
  }

  lemma {:induction false} TrimStartPadded(drop: char -> bool, before: string, s: string)
    requires forall c | c in before :: drop(c)
    ensures TrimStart(drop, before + s) == TrimStart(drop, s)
  {
    if before == "" {
      assert before + s == s;
    } else {
      assert (before + s)[1..] == before[1..] + s && before[0] in before;
      TrimStartPadded(drop, before[1..], s);
    }
  }

  lemma {:induction false} TrimEndPadded(drop: char -> bool, s: string, after: string)
    requires forall c | c in after :: drop(c)
    ensures TrimEnd(drop, s + after) == TrimEnd(drop, s)
  {
    if after == "" {
      assert s + after == s;
    } else {
      var n := |after| - 1;
      assert (s + after)[..|s + after| - 1] == s + after[..n] && after[n] in after;
      TrimEndPadded(drop, s, after[..n]);
    }
  }

  /** Trimming takes away exactly what surrounds a text with clean edges. */
  lemma TrimPadded(drop: char -> bool, before: string, s: string, after: string)
    requires CleanEdges(drop, s) && (forall c | c in before :: drop(c)) && forall c | c in after :: drop(c)
    ensures TrimBy(drop, before + s + after) == s
  {
    TrimFixed(drop, s);
    Assoc(before, s, after);
    TrimStartPadded(drop, before, s + after);
    if s == "" {
      assert s + after == after && after + "" == after;
      TrimStartPadded(drop, after, "");
    } else {
      assert (s + after)[0] == s[0];
      TrimEndPadded(drop, s, after);
    }
  }

  function Join(parts: seq<string>, sep: string): string {
    if |parts| == 0 then ""
    else if |parts| == 1 then parts[0]
    else parts[0] + sep + Join(parts[1..], sep)
  }

  /** No character of `s` satisfies `hit`. */
  ghost predicate Without(hit: char -> bool, s: string) {
    forall i | 0 <= i < |s| :: !hit(s[i])
  }

  ghost predicate AllWithout(hit: char -> bool, parts: seq<string>) {
    forall i | 0 <= i < |parts| :: Without(hit, parts[i])
  }

  /** Splits at every character that satisfies `isSep`, keeping empty pieces. */
  function SplitBy(isSep: char -> bool, s: string): (r: seq<string>)
    ensures |r| >= 1
  {
    if s == "" then [""]
    else
      var rest := SplitBy(isSep, s[1..]);
      if isSep(s[0]) then [""] + rest else [[s[0]] + rest[0]] + rest[1..]
  }

  lemma {:induction false} SplitPieces(isSep: char -> bool, s: string)
    ensures AllWithout(isSep, SplitBy(isSep, s))
  {
    if s != "" {
      SplitPieces(isSep, s[1..]);
    }
  }

  lemma {:induction false} SplitNoSep(isSep: char -> bool, s: string)
    requires Without(isSep, s)
    ensures SplitBy(isSep, s) == [s]
  {
    if s != "" {
      SplitNoSep(isSep, s[1..]);
      assert s == [s[0]] + s[1..];
    }
  }

  lemma {:induction false} SplitAtSep(isSep: char -> bool, a: string, sep: char, b: string)
    requires Without(isSep, a) && isSep(sep)
    ensures SplitBy(isSep, a + [sep] + b) == [a] + SplitBy(isSep, b)
  {
    var s := a + [sep] + b;
    if a == "" {
      assert s[1..] == b;
    } else {
      assert s[1..] == a[1..] + [sep] + b;
      SplitAtSep(isSep, a[1..], sep, b);
      assert a == [a[0]] + a[1..];
    }
  }

  /** Splitting undoes joining, whenever there is at least one piece. */
  lemma {:induction false} SplitJoin(isSep: char -> bool, parts: seq<string>, sep: char)
    requires |parts| >= 1 && isSep(sep)
    requires AllWithout(isSep, parts)
    ensures SplitBy(isSep, Join(parts, [sep])) == parts
  {
    assert Without(isSep, parts[0]);
    if |parts| == 1 {
      SplitNoSep(isSep, parts[0]);
    } else {
      SplitJoin(isSep, parts[1..], sep);
      SplitAtSep(isSep, parts[0], sep, Join(parts[1..], [sep]));
    }
  }

  lemma Assoc<A>(a: seq<A>, b: seq<A>, c: seq<A>)
    ensures a + (b + c) == (a + b) + c
  {
  }

  function Map<A, B>(f: A -> B, xs: seq<A>): (r: seq<B>)
    ensures |r| == |xs|
  {
    if xs == [] then [] else [f(xs[0])] + Map(f, xs[1..])
  }

  function Filter<A>(keep: A -> bool, xs: seq<A>): (r: seq<A>)
    ensures forall x | x in r :: x in xs && keep(x)
    ensures forall x | x in xs :: keep(x) ==> x in r
  {
    if xs == [] then [] else (if keep(xs[0]) then [xs[0]] else []) + Filter(keep, xs[1..])
  }

  lemma {:induction false} FilterAppend<A>(keep: A -> bool, xs: seq<A>, ys: seq<A>)
    ensures Filter(keep, xs + ys) == Filter(keep, xs) + Filter(keep, ys)
  {
    if xs == [] {
      assert xs + ys == ys;
    } else {
      assert (xs + ys)[1..] == xs[1..] + ys;
      FilterAppend(keep, xs[1..], ys);
    }
  }

  /** Trimming first makes no difference if what is trimmed is not kept anyway. */
  lemma {:induction false} FilterTrimmed(drop: char -> bool, keep: char -> bool, s: string)
    requires forall c | drop(c) :: !keep(c)
    ensures Filter(keep, TrimBy(drop, s)) == Filter(keep, s)
  {
    FilterTrimStart(drop, keep, s);
    FilterTrimEnd(drop, keep, TrimStart(drop, s));
  }

  lemma {:induction false} FilterTrimStart(drop: char -> bool, keep: char -> bool, s: string)
    requires forall c | drop(c) :: !keep(c)
    ensures Filter(keep, TrimStart(drop, s)) == Filter(keep, s)
  {
    if s != "" && drop(s[0]) { FilterTrimStart(drop, keep, s[1..]); }
  }

  lemma {:induction false} FilterTrimEnd(drop: char -> bool, keep: char -> bool, s: string)
    requires forall c | drop(c) :: !keep(c)
    ensures Filter(keep, TrimEnd(drop, s)) == Filter(keep, s)
  {
    if s != "" && drop(s[|s| - 1]) {
      var n := |s| - 1;
      FilterTrimEnd(drop, keep, s[..n]);
      FilterAppend(keep, s[..n], [s[n]]);
      FilterOne(keep, s[n]);
      assert TrimEnd(drop, s) == TrimEnd(drop, s[..n]);
      hide Filter, TrimEnd;
      assert s == s[..n] + [s[n]];
      assert Filter(keep, s[..n]) + [] == Filter(keep, s[..n]);
    }
  }

  lemma FilterOne<A>(keep: A -> bool, x: A)
    ensures Filter(keep, [x]) == if keep(x) then [x] else []
  {
    assert [x][1..] == [];
  }

  lemma {:induction false} FilterAll<A>(keep: A -> bool, xs: seq<A>)
    requires forall x | x in xs :: keep(x)
    ensures Filter(keep, xs) == xs
  {
    if xs != [] {
      FilterAll(keep, xs[1..]);
    }
  }

  lemma MapCons<A, B>(f: A -> B, xs: seq<A>)
    requires xs != []
    ensures Map(f, xs) == [f(xs[0])] + Map(f, xs[1..])
  {
  }

  lemma {:induction false} MapAt<A, B>(f: A -> B, xs: seq<A>, i: nat)
    requires i < |xs|
    ensures Map(f, xs)[i] == f(xs[i])
  {
    if i > 0 { MapAt(f, xs[1..], i - 1); }
  }

  lemma {:induction false} MapFixed<A>(f: A -> A, xs: seq<A>)
    requires forall x | x in xs :: f(x) == x
    ensures Map(f, xs) == xs
  {
    if xs != [] { MapFixed(f, xs[1..]); }
  }

  lemma {:induction false} MapAppend<A, B>(f: A -> B, xs: seq<A>, ys: seq<A>)
    ensures Map(f, xs + ys) == Map(f, xs) + Map(f, ys)
  {
    if xs == [] {
      assert xs + ys == ys;
    } else {
      assert (xs + ys)[1..] == xs[1..] + ys;
      MapAppend(f, xs[1..], ys);
    }
  }

  predicate IsSeparator(c: char) {
    c == ',' || c == ';' || c == '|'
  }

  /** What is assumed of Unicode lower-casing: it neither empties nor fills a string,
      never produces a separator that was not there, and fixes lower-case ASCII words and separators. */
  ghost predicate IsCaseMap(f: string -> string) {
    && (forall s :: f(s) == "" <==> s == "")
    && (forall s, c :: c in f(s) && IsSeparator(c) ==> c in s)
    && (forall s :: (forall c | c in s :: 'a' <= c <= 'z' || IsSeparator(c)) ==> f(s) == s)
  }

  type CaseMap = f: string -> string | IsCaseMap(f) witness (s: string) => s

  lemma LowerKeeps(lower: CaseMap, s: string, c: char)
    requires c in lower(s) && IsSeparator(c)
    ensures c in s
  {
    assert IsCaseMap(lower);
  }
}
