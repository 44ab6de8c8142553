/** Option ids and the order-free ids of composite answers. */
module OptionKeys {
  import opened Text
  import opened Sorting

  predicate IsAlnum(c: char) {
    'A' <= c <= 'Z' || '0' <= c <= '9'
  }

  predicate IsUnderscore(c: char) {
    c == '_'
  }

  /** Drops a leading run of characters that are neither letters nor digits. */
  function SkipOther(s: string): (r: string)
    ensures |r| <= |s|
  {
    if s != "" && !IsAlnum(s[0]) then SkipOther(s[1..]) else s
  }

  /** Replaces every maximal run of other characters by one underscore. */
  function Collapse(s: string): string
    decreases |s|
  {
    if s == "" then ""
    else if IsAlnum(s[0]) then [s[0]] + Collapse(s[1..])
    else "_" + Collapse(SkipOther(s[1..]))
  }

  function Normal(s: string): string {
    TrimBy(IsUnderscore, Collapse(s))
  }

  /** `space` is what the language's own strip or trim removes. */
  function ToOptionId(upper: string -> string, space: char -> bool, s: string): string {
    if s == "" then "" else Normal(TrimBy(space, upper(s)))
  }

  // ---------------------------------------------------------------- the shape of an id

  ghost predicate IdChars(s: string) {
    forall i | 0 <= i < |s| :: IsAlnum(s[i]) || s[i] == '_'
  }

  ghost predicate NoDouble(s: string) {
    forall i | 0 <= i < |s| - 1 :: s[i] == '_' ==> s[i + 1] != '_'
  }

  /** Letters, digits and single underscores, none at an edge. */
  ghost predicate IsId(s: string) {
    IdChars(s) && NoDouble(s) && CleanEdges(IsUnderscore, s)
  }

  lemma SkipOtherShape(s: string)
    ensures SkipOther(s) == "" || IsAlnum(SkipOther(s)[0])
  {
  }

  lemma {:induction false} CollapseShape(s: string)
    ensures var r := Collapse(s);
      && IdChars(r) && NoDouble(r)
      && (s != "" ==> r != "" && (IsAlnum(s[0]) ==> r[0] == s[0]))
    decreases |s|
  {
    if s != "" {
      if IsAlnum(s[0]) {
        CollapseShape(s[1..]);
      } else {
        var t := SkipOther(s[1..]);
        SkipOtherShape(s[1..]);
        CollapseShape(t);
      }
    }
  }

  lemma {:induction false} TrimStartIds(s: string)
    requires IdChars(s) && NoDouble(s)
    ensures IdChars(TrimStart(IsUnderscore, s)) && NoDouble(TrimStart(IsUnderscore, s))
  {
    if s != "" && s[0] == '_' { TrimStartIds(s[1..]); }
  }

  lemma {:induction false} TrimEndIds(s: string)
    requires IdChars(s) && NoDouble(s)
    ensures IdChars(TrimEnd(IsUnderscore, s)) && NoDouble(TrimEnd(IsUnderscore, s))
  {
    if s != "" && s[|s| - 1] == '_' { TrimEndIds(s[..|s| - 1]); }
  }

  lemma NormalShape(s: string)
    ensures IsId(Normal(s))
  {
    CollapseShape(s);
    TrimStartIds(Collapse(s));
    TrimEndIds(TrimStart(IsUnderscore, Collapse(s)));
    TrimShape(IsUnderscore, Collapse(s));
  }

  // ---------------------------------------------------------------- an id is the words of its label

  predicate IsOther(c: char) {
    !IsAlnum(c)
  }

  predicate NonEmpty(w: string) {
    w != ""
  }

  /** The maximal runs of letters and digits. */
  function Words(s: string): seq<string> {
    Filter(NonEmpty, SplitBy(IsOther, s))
  }

  lemma WordsSkip(c: char, s: string)
    requires IsOther(c)
    ensures Words([c] + s) == Words(s)
  {
    assert ([c] + s)[1..] == s;
    assert ([""] + SplitBy(IsOther, s))[1..] == SplitBy(IsOther, s);
  }

  lemma {:induction false} SplitLast(s: string, c: char)
    requires IsOther(c)
    ensures SplitBy(IsOther, s + [c]) == SplitBy(IsOther, s) + [""]
  {
    if s == "" {
      assert (s + [c])[1..] == "";
    } else {
      assert (s + [c])[1..] == s[1..] + [c];
      SplitLast(s[1..], c);
    }
  }

  lemma WordsDropLast(s: string, c: char)
    requires IsOther(c)
    ensures Words(s + [c]) == Words(s)
  {
    SplitLast(s, c);
    FilterAppend(NonEmpty, SplitBy(IsOther, s), [""]);
    assert [""][1..] == [];
    assert Filter(NonEmpty, [""]) == [];
  }

  lemma {:induction false} WordsSkipOther(s: string)
    ensures Words(SkipOther(s)) == Words(s)
    ensures s != "" && SkipOther(s) == "" ==> IsOther(s[|s| - 1])
    ensures SkipOther(s) != "" ==> s != "" && SkipOther(s)[|SkipOther(s)| - 1] == s[|s| - 1]
  {
    if s != "" && IsOther(s[0]) {
      WordsSkipOther(s[1..]);
      WordsSkip(s[0], s[1..]);
      assert [s[0]] + s[1..] == s;
    }
  }

  function Tail(s: string): string {
    if s != "" && IsOther(s[|s| - 1]) then "_" else ""
  }

  /** A first letter joins the word that follows it, or stands alone. */
  lemma WordsGrow(s: string)
    requires s != "" && IsAlnum(s[0])
    ensures |s| > 1 && IsAlnum(s[1]) ==>
      Words(s[1..]) != [] && Words(s) == [[s[0]] + Words(s[1..])[0]] + Words(s[1..])[1..]
    ensures |s| == 1 || IsOther(s[1]) ==> Words(s) == [[s[0]]] + Words(s[1..])
  {
    var rest := SplitBy(IsOther, s[1..]);
    assert SplitBy(IsOther, s) == [[s[0]] + rest[0]] + rest[1..];
    assert ([[s[0]] + rest[0]] + rest[1..])[1..] == rest[1..];
    if |s| > 1 && IsAlnum(s[1]) {
      assert NonEmpty(rest[0]);
    } else {
      assert rest == [""] + rest[1..] && [s[0]] + "" == [s[0]];
    }
  }

  lemma JoinHead(c: char, ws: seq<string>)
    requires ws != []
    ensures Join([[c] + ws[0]] + ws[1..], "_") == [c] + Join(ws, "_")
  {
    if |ws| > 1 {
      Assoc([c], ws[0] + "_", Join(ws[1..], "_"));
      Assoc([c], ws[0], "_");
    }
  }

  lemma JoinFirst(w: string, ws: seq<string>)
    requires ws != []
    ensures Join([w] + ws, "_") == w + ("_" + Join(ws, "_"))
  {
    assert ([w] + ws)[1..] == ws;
    Assoc(w, "_", Join(ws, "_"));
  }

  lemma WordsEmpty()
    ensures Words("") == []
  {
    assert [""][1..] == [];
  }

  lemma GapText(c: string, j: string, tail: string)
    ensures c + ("_" + (j + tail)) == (c + ("_" + j)) + tail
  {
  }

  lemma CollapseAt(s: string)
    requires |s| > 1 && IsAlnum(s[0]) && IsOther(s[1])
    ensures Collapse(s) == [s[0]] + ("_" + Collapse(SkipOther(s[2..])))
  {
    assert s[1..][1..] == s[2..];
    assert s[1..][0] == s[1];
  }

  lemma GapTail(s: string)
    requires |s| > 1 && IsOther(s[1])
    ensures Tail(s) == if SkipOther(s[2..]) == "" then "_" else Tail(SkipOther(s[2..]))
    ensures Words(s[1..]) == Words(SkipOther(s[2..]))
    ensures SkipOther(s[2..]) != "" ==> Words(SkipOther(s[2..])) != []
  {
    hide Words, SkipOther;
    WordsSkipOther(s[2..]);
    SkipOtherShape(s[2..]);
    WordsSkip(s[1], s[2..]);
    assert [s[1]] + s[2..] == s[1..];
    if SkipOther(s[2..]) != "" { WordsGrow(SkipOther(s[2..])); }
  }

  /** The step of the induction where the first word ends. */
  lemma CollapseGap(s: string, u: string)
    requires |s| > 1 && IsAlnum(s[0]) && IsOther(s[1]) && u == SkipOther(s[2..])
    requires Collapse(u) == Join(Words(u), "_") + Tail(u)
    ensures Collapse(s) == Join([[s[0]]] + Words(u), "_") + Tail(s)
  {
    hide Words, Collapse, SkipOther, Tail, Join;
    var c, ws := [s[0]], Words(u);
    CollapseAt(s);
    GapTail(s);
    if u == "" {
      WordsEmpty();
      CollapseEmpty();
      JoinOne(c);
      assert [c] + ws == [c];
    } else {
      JoinFirst(c, ws);
      GapText(c, Join(ws, "_"), Tail(u));
    }
  }

  lemma CollapseEmpty()
    ensures Collapse("") == ""
  {
  }

  lemma JoinOne(w: string)
    ensures Join([w], "_") == w
  {
  }

  lemma {:induction false} CollapseWords(s: string)
    requires s == "" || IsAlnum(s[0])
    ensures Collapse(s) == Join(Words(s), "_") + Tail(s)
    decreases |s|
  {
    hide Words, SkipOther, Join;
    WordsEmpty();
    if s == "" {
      JoinNone();
    } else {
      var t := s[1..];
      WordsGrow(s);
      if t == "" {
        assert [[s[0]]] + [] == [[s[0]]];
        JoinOne([s[0]]);
      } else if IsAlnum(s[1]) {
        CollapseWords(t);
        JoinHead(s[0], Words(t));
        Assoc([s[0]], Join(Words(t), "_"), Tail(t));
      } else {
        var u := SkipOther(s[2..]);
        SkipOtherShape(s[2..]);
        CollapseWords(u);
        CollapseGap(s, u);
        GapTail(s);
      }
    }
  }

  lemma JoinNone()
    ensures Join([], "_") == ""
  {
  }

  lemma {:induction false} TrimTail(r: string)
    ensures TrimBy(IsUnderscore, r + "_") == TrimBy(IsUnderscore, r)
  {
    if r == "" {
      assert ("" + "_")[1..] == "";
    } else if r[0] == '_' {
      assert (r + "_")[1..] == r[1..] + "_";
      TrimTail(r[1..]);
    } else {
      assert (r + "_")[..|r|] == r;
    }
  }

  lemma {:induction false} WordsShape(s: string)
    ensures forall w | w in Words(s) :: w != "" && Without(IsOther, w)
  {
    SplitPieces(IsOther, s);
  }

  lemma {:induction false} JoinedEdges(ws: seq<string>)
    requires forall w | w in ws :: w != "" && Without(IsOther, w)
    ensures CleanEdges(IsUnderscore, Join(ws, "_"))
    ensures ws != [] ==> Join(ws, "_") != ""
  {
    if |ws| > 1 {
      assert ws[0] in ws && Without(IsOther, ws[0]);
      forall w | w in ws[1..] ensures w != "" && Without(IsOther, w) {
        assert w in ws;
      }
      JoinedEdges(ws[1..]);
      assert Join(ws, "_")[0] == ws[0][0];
    } else if |ws| == 1 {
      assert ws[0] in ws && Without(IsOther, ws[0]);
    }
  }

  /** An id is its label's words joined by single underscores. */
  lemma NormalIsWords(s: string)
    ensures Normal(s) == Join(Words(s), "_")
  {
    hide Words, Join, SkipOther, TrimBy;
    var u := SkipOther(s);
    var j := Join(Words(u), "_");
    SkipOtherShape(s);
    WordsSkipOther(s);
    CollapseWords(u);
    WordsShape(u);
    JoinedEdges(Words(u));
    TrimShape(IsUnderscore, j);
    TrimTail(j);
    assert j + "" == j;
    assert Collapse(u) == j || Collapse(u) == j + "_";
    if s != u {
      CollapseSkipped(s);
      TrimHead(Collapse(u));
    }
  }

  lemma SplitOne(s: string)
    requires s != ""
    ensures var rest := SplitBy(IsOther, s[1..]);
      SplitBy(IsOther, s) == if IsOther(s[0]) then [""] + rest else [[s[0]] + rest[0]] + rest[1..]
  {
  }

  lemma {:induction false} SplitAppend(a: string, c: char, b: string)
    requires IsOther(c)
    ensures SplitBy(IsOther, a + ([c] + b)) == SplitBy(IsOther, a) + SplitBy(IsOther, b)
  {
    hide SplitBy, IsOther;
    var s := a + ([c] + b);
    SplitOne(s);
    if a == "" {
      assert s == [c] + b && s[1..] == b && s[0] == c;
      SplitNoSep(IsOther, a);
    } else {
      assert s[1..] == a[1..] + ([c] + b) && s[0] == a[0];
      SplitAppend(a[1..], c, b);
      var xs, ys := SplitBy(IsOther, a[1..]), SplitBy(IsOther, b);
      SplitOne(a);
      assert (xs + ys)[0] == xs[0] && (xs + ys)[1..] == xs[1..] + ys;
      Assoc([""], xs, ys);
      Assoc([[a[0]] + xs[0]], xs[1..], ys);
    }
  }

  lemma {:induction false} JoinAppend(xs: seq<string>, ys: seq<string>)
    requires xs != [] && ys != []
    ensures Join(xs + ys, "_") == Join(xs, "_") + ("_" + Join(ys, "_"))
  {
    if |xs| == 1 {
      assert xs + ys == [xs[0]] + ys;
      JoinFirst(xs[0], ys);
    } else {
      assert (xs + ys)[1..] == xs[1..] + ys && (xs + ys)[0] == xs[0];
      JoinAppend(xs[1..], ys);
      JoinFirst(xs[0], xs[1..] + ys);
      JoinFirst(xs[0], xs[1..]);
      assert xs == [xs[0]] + xs[1..] && xs + ys == [xs[0]] + (xs[1..] + ys);
      var j, tail := Join(xs[1..], "_"), "_" + Join(ys, "_");
      assert xs[0] + ("_" + (j + tail)) == (xs[0] + ("_" + j)) + tail by { GapText(xs[0], j, tail); }
    }
  }

  /** A label is read from its parts: capital letters and digits stay as they are, and every other character only
      separates words, which one underscore joins. */
  lemma NormalExactly(word: string, a: string, c: char, b: string)
    requires forall x | x in word :: 'A' <= x <= 'Z' || '0' <= x <= '9'
    requires !('A' <= c <= 'Z') && !('0' <= c <= '9')
    ensures Normal(word) == word
    ensures Normal(a + ([c] + b))
         == if Normal(a) == "" then Normal(b) else if Normal(b) == "" then Normal(a)
            else Normal(a) + ("_" + Normal(b))
  {
    hide Join, Normal, Words, IsAlnum;
    NormalIsWords(word);
    NormalIsWords(a);
    NormalIsWords(b);
    NormalIsWords(a + ([c] + b));
    WordsOne(word);
    WordsAppend(a, c, b);
    NoWords(a);
    NoWords(b);
    JoinNone();
    JoinOne(word);
    if Words(a) != [] && Words(b) != [] { JoinAppend(Words(a), Words(b)); }
    assert Words(a) + [] == Words(a) && [] + Words(b) == Words(b);
  }

  lemma WordsOne(word: string)
    requires forall x | x in word :: 'A' <= x <= 'Z' || '0' <= x <= '9'
    ensures Words(word) == if word == "" then [] else [word]
  {
    forall i | 0 <= i < |word| ensures !IsOther(word[i]) { assert word[i] in word; }
    SplitNoSep(IsOther, word);
    FilterOne(NonEmpty, word);
  }

  lemma WordsAppend(a: string, c: char, b: string)
    requires !('A' <= c <= 'Z') && !('0' <= c <= '9')
    ensures Words(a + ([c] + b)) == Words(a) + Words(b)
  {
    SplitAppend(a, c, b);
    FilterAppend(NonEmpty, SplitBy(IsOther, a), SplitBy(IsOther, b));
  }

  /** Only a label without words has the empty id. */
  lemma NoWords(s: string)
    ensures Normal(s) == "" <==> Words(s) == []
  {
    NormalIsWords(s);
    WordsShape(s);
    JoinedEdges(Words(s));
    JoinNone();
  }

  lemma CollapseSkipped(s: string)
    requires SkipOther(s) != s
    ensures Collapse(s) == "_" + Collapse(SkipOther(s))
  {
  }

  lemma TrimHead(r: string)
    ensures TrimBy(IsUnderscore, "_" + r) == TrimBy(IsUnderscore, r)
  {
    assert ("_" + r)[1..] == r;
  }

  lemma {:induction false} WordsAfterTrimStart(space: char -> bool, s: string)
    requires forall c | IsAlnum(c) :: !space(c)
    ensures Words(TrimStart(space, s)) == Words(s)
  {
    if s != "" && space(s[0]) {
      WordsAfterTrimStart(space, s[1..]);
      WordsSkip(s[0], s[1..]);
      assert [s[0]] + s[1..] == s;
    }
  }

  lemma {:induction false} WordsAfterTrimEnd(space: char -> bool, s: string)
    requires forall c | IsAlnum(c) :: !space(c)
    ensures Words(TrimEnd(space, s)) == Words(s)
  {
    if s != "" && space(s[|s| - 1]) {
      var t := s[..|s| - 1];
      WordsAfterTrimEnd(space, t);
      WordsDropLast(t, s[|s| - 1]);
      assert t + [s[|s| - 1]] == s;
    }
  }

  /** Every variant in the repository computes one function: the strip before it is redundant, whatever it strips. */
  lemma StripIsRedundant(upper: string -> string, space: char -> bool, s: string)
    requires forall c | IsAlnum(c) :: !space(c)
    requires upper("") == ""
    ensures ToOptionId(upper, space, s) == Normal(upper(s)) == Join(Words(upper(s)), "_")
  {
    var t := upper(s);
    WordsAfterTrimStart(space, t);
    WordsAfterTrimEnd(space, TrimStart(space, t));
    NormalIsWords(TrimBy(space, t));
    NormalIsWords(t);
  }

  // ---------------------------------------------------------------- joining and splitting on a doubled underscore

  const SEP := "__"

  /** Splitting at each leftmost doubled underscore. */
  function SplitSep(s: string): (r: seq<string>)
    ensures |r| >= 1
  {
    if |s| < 2 then [s]
    else if s[0] == '_' && s[1] == '_' then [""] + SplitSep(s[2..])
    else var rest := SplitSep(s[1..]); [[s[0]] + rest[0]] + rest[1..]
  }

  lemma {:induction false} SplitNoDouble(p: string)
    requires NoDouble(p)
    ensures SplitSep(p) == [p]
  {
    if |p| >= 2 {
      assert p[0] == '_' ==> p[0 + 1] != '_';
      SplitNoDouble(p[1..]);
      assert p == [p[0]] + p[1..];
    }
  }

  lemma SplitDouble(rest: string)
    ensures SplitSep(SEP + rest) == [""] + SplitSep(rest)
  {
    assert (SEP + rest)[2..] == rest;
  }

  lemma {:induction false} SplitAtDouble(p: string, rest: string)
    requires NoDouble(p) && (p == "" || p[|p| - 1] != '_')
    ensures SplitSep(p + (SEP + rest)) == [p] + SplitSep(rest)
  {
    var s := p + (SEP + rest);
    if p == "" {
      assert s == SEP + rest;
      SplitDouble(rest);
    } else {
      assert s[1..] == p[1..] + (SEP + rest);
      assert |p| > 1 ==> (p[0] == '_' ==> p[0 + 1] != '_');
      assert s[0] == p[0] && (|p| > 1 ==> s[1] == p[1]);
      SplitAtDouble(p[1..], rest);
      assert p == [p[0]] + p[1..];
      assert ([p[1..]] + SplitSep(rest))[1..] == SplitSep(rest);
    }
  }

  ghost predicate AllIds(parts: seq<string>) {
    forall i | 0 <= i < |parts| :: IsId(parts[i])
  }

  /** A composite id tells its parts: splitting on the separator undoes the join. */
  lemma {:induction false} SplitJoined(parts: seq<string>)
    requires parts != [] && AllIds(parts)
    ensures SplitSep(Join(parts, SEP)) == parts
  {
    assert IsId(parts[0]);
    if |parts| == 1 {
      SplitNoDouble(parts[0]);
    } else {
      var p, rest := parts[0], Join(parts[1..], SEP);
      SplitJoined(parts[1..]);
      SplitAtDouble(p, rest);
      Assoc(p, SEP, rest);
    }
  }

  // ---------------------------------------------------------------- composite ids

  predicate IsSemicolon(c: char) {
    c == ';'
  }

  /** The ids of the non-blank parts of a label, in label order. */
  function PartIds(upper: string -> string, space: char -> bool, text: string): seq<string> {
    IdsOf(upper, space, SplitBy(IsSemicolon, text))
  }

  function IdsOf(upper: string -> string, space: char -> bool, pieces: seq<string>): seq<string> {
    Map((p: string) => ToOptionId(upper, space, p), Filter((p: string) => TrimBy(space, p) != "", pieces))
  }

  /** A text without a semicolon is one part, with the id of the whole, or none if it is blank; at a semicolon the parts
      are cut. */
  lemma PartsExactly(upper: string -> string, space: char -> bool, part: string, rest: string)
    requires ';' !in part
    ensures PartIds(upper, space, part) == if TrimBy(space, part) == "" then [] else [ToOptionId(upper, space, part)]
    ensures PartIds(upper, space, part + [';'] + rest) == PartIds(upper, space, part) + PartIds(upper, space, rest)
  {
    var keep := (p: string) => TrimBy(space, p) != "";
    var f := (p: string) => ToOptionId(upper, space, p);
    SplitNoSep(IsSemicolon, part);
    SplitAtSep(IsSemicolon, part, ';', rest);
    FilterAppend(keep, [part], SplitBy(IsSemicolon, rest));
    MapAppend(f, Filter(keep, [part]), Filter(keep, SplitBy(IsSemicolon, rest)));
    assert [part][1..] == [];
    assert Filter(keep, [part]) == if TrimBy(space, part) == "" then [] else [part];
    assert Map(f, [part]) == [ToOptionId(upper, space, part)];
  }

  function CompositeOptionId(upper: string -> string, space: char -> bool, text: string): string {
    Join(Sort(PartIds(upper, space, text)), SEP)
  }

  lemma IdsAreIds(upper: string -> string, space: char -> bool, text: string)
    ensures AllIds(PartIds(upper, space, text)) && AllIds(Sort(PartIds(upper, space, text)))
  {
    var ids := PartIds(upper, space, text);
    var f := (p: string) => ToOptionId(upper, space, p);
    var kept := Filter((p: string) => TrimBy(space, p) != "", SplitBy(IsSemicolon, text));
    forall i | 0 <= i < |ids| ensures IsId(ids[i]) {
      MapAt(f, kept, i);
      NormalShape(TrimBy(space, upper(kept[i])));
    }
    SortedIds(ids);
  }

  lemma SortedIds(ids: seq<string>)
    requires AllIds(ids)
    ensures AllIds(Sort(ids))
  {
    forall i | 0 <= i < |Sort(ids)| ensures IsId(Sort(ids)[i]) {
      assert Sort(ids)[i] in multiset(ids);
      var j :| 0 <= j < |ids| && ids[j] == Sort(ids)[i];
    }
  }

  /** The sorted parts of a label can be read off its composite id. */
  lemma CompositeSplits(upper: string -> string, space: char -> bool, text: string)
    requires PartIds(upper, space, text) != []
    ensures SplitSep(CompositeOptionId(upper, space, text)) == Sort(PartIds(upper, space, text))
  {
    IdsAreIds(upper, space, text);
    SplitJoined(Sort(PartIds(upper, space, text)));
  }

  /** No part at all, or one part without a letter or digit: both give the empty id. */
  ghost predicate Degenerate(ids: seq<string>) {
    ids == [] || ids == [""]
  }

  /** Two labels share a composite id exactly when their normalised parts are the same multiset, save for
      the empty id. */
  lemma CompositeEquality(upper: string -> string, space: char -> bool, a: string, b: string)
    ensures var p, q := PartIds(upper, space, a), PartIds(upper, space, b);
      CompositeOptionId(upper, space, a) == CompositeOptionId(upper, space, b)
      <==> multiset(p) == multiset(q) || (Degenerate(p) && Degenerate(q))
  {
    var p, q := PartIds(upper, space, a), PartIds(upper, space, b);
    SortCanonical(p, q);
    JoinedEmpty(upper, space, a);
    JoinedEmpty(upper, space, b);
    if p != [] && q != [] {
      CompositeSplits(upper, space, a);
      CompositeSplits(upper, space, b);
    }
  }

  lemma JoinedEmpty(upper: string -> string, space: char -> bool, text: string)
    ensures CompositeOptionId(upper, space, text) == "" <==> Degenerate(PartIds(upper, space, text))
  {
    var p := PartIds(upper, space, text);
    if |p| == 1 {
      assert [p[0]][1..] == [] && p == [p[0]];
      assert Sort(p) == p;
    } else if |p| > 1 {
      assert |Join(Sort(p), SEP)| >= 2;
    }
  }

  // ---------------------------------------------------------------- reordering a label

  lemma {:induction false} IdsMultiset(upper: string -> string, space: char -> bool, xs: seq<string>, x: string)
    ensures multiset(IdsOf(upper, space, [x] + xs))
        == multiset(IdsOf(upper, space, [x])) + multiset(IdsOf(upper, space, xs))
  {
    var keep := (p: string) => TrimBy(space, p) != "";
    var f := (p: string) => ToOptionId(upper, space, p);
    FilterAppend(keep, [x], xs);
    MapAppend(f, Filter(keep, [x]), Filter(keep, xs));
  }

  lemma {:induction false} IdsIgnoreOrder(upper: string -> string, space: char -> bool, xs: seq<string>,
                                          ys: seq<string>)
    requires multiset(xs) == multiset(ys)
    ensures multiset(IdsOf(upper, space, xs)) == multiset(IdsOf(upper, space, ys))
    decreases |xs|
  {
    if xs == [] {
      assert |ys| == |multiset(ys)| == |multiset(xs)|;
    } else {
      var x := xs[0];
      assert x in multiset(xs);
      var a, b := TakeOne(ys, x);
      var c, d := TakeOne(xs, x);
      IdsIgnoreOrder(upper, space, c + d, a + b);
      IdsMove(upper, space, a, x, b);
      IdsMove(upper, space, c, x, d);
    }
  }

  lemma TakeOne(ys: seq<string>, x: string) returns (a: seq<string>, b: seq<string>)
    requires x in multiset(ys)
    ensures ys == a + ([x] + b) && multiset(a + b) == multiset(ys) - multiset{x} && |a + b| == |ys| - 1
  {
    var j :| 0 <= j < |ys| && ys[j] == x;
    a, b := ys[..j], ys[j + 1..];
    assert ys == a + ([x] + b);
  }

  lemma {:induction false} IdsMove(upper: string -> string, space: char -> bool, a: seq<string>, x: string,
                                   b: seq<string>)
    ensures multiset(IdsOf(upper, space, a + ([x] + b)))
         == multiset(IdsOf(upper, space, [x])) + multiset(IdsOf(upper, space, a + b))
  {
    if a == [] {
      assert a + ([x] + b) == [x] + b && a + b == b;
      IdsMultiset(upper, space, b, x);
    } else {
      assert a + ([x] + b) == [a[0]] + (a[1..] + ([x] + b));
      assert a + b == [a[0]] + (a[1..] + b);
      IdsMove(upper, space, a[1..], x, b);
      IdsMultiset(upper, space, a[1..] + ([x] + b), a[0]);
      IdsMultiset(upper, space, a[1..] + b, a[0]);
    }
  }

  /** Ticking the same items in another order gives the same id. */
  lemma OrderIndependent(upper: string -> string, space: char -> bool, xs: seq<string>, ys: seq<string>)
    requires xs != [] && multiset(xs) == multiset(ys)
    requires AllWithout(IsSemicolon, xs) && AllWithout(IsSemicolon, ys)
    ensures CompositeOptionId(upper, space, Join(xs, ";")) == CompositeOptionId(upper, space, Join(ys, ";"))
  {
    assert |ys| == |multiset(ys)| == |multiset(xs)|;
    SplitJoin(IsSemicolon, xs, ';');
    SplitJoin(IsSemicolon, ys, ';');
    IdsIgnoreOrder(upper, space, xs, ys);
    CompositeEquality(upper, space, Join(xs, ";"), Join(ys, ";"));
  }

  // ---------------------------------------------------------------- sub-domain codes

  function SubDomainCode(upper: string -> string, domain: string, subDomain: string): string {
    ToOptionId(upper, IsSpace, domain) + SEP + ToOptionId(upper, IsSpace, subDomain)
  }

  /** The id of the domain comes first in a code, and the id of the sub-domain second. */
  lemma CodeSplits(upper: string -> string, domain: string, subDomain: string)
    ensures SplitSep(SubDomainCode(upper, domain, subDomain))
         == [ToOptionId(upper, IsSpace, domain), ToOptionId(upper, IsSpace, subDomain)]
  {
    forall s ensures IsId(ToOptionId(upper, IsSpace, s)) {
      NormalShape(TrimBy(IsSpace, upper(s)));
    }
    var p := [ToOptionId(upper, IsSpace, domain), ToOptionId(upper, IsSpace, subDomain)];
    SplitJoined(p);
    assert p[1..] == [p[1]];
  }

  /** A sub-domain code determines the ids of its domain and its sub-domain. */
  lemma CodesInjective(upper: string -> string, d1: string, s1: string, d2: string, s2: string)
    ensures SubDomainCode(upper, d1, s1) == SubDomainCode(upper, d2, s2)
       <==> (ToOptionId(upper, IsSpace, d1) == ToOptionId(upper, IsSpace, d2)
             && ToOptionId(upper, IsSpace, s1) == ToOptionId(upper, IsSpace, s2))
  {
    forall s ensures IsId(ToOptionId(upper, IsSpace, s)) {
      NormalShape(TrimBy(IsSpace, upper(s)));
    }
    var p := [ToOptionId(upper, IsSpace, d1), ToOptionId(upper, IsSpace, s1)];
    var q := [ToOptionId(upper, IsSpace, d2), ToOptionId(upper, IsSpace, s2)];
    SplitJoined(p);
    SplitJoined(q);
    assert p[1..] == [p[1]] && q[1..] == [q[1]];
  }
}
