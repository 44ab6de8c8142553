/** The canonical key by which two Needs of one study count as the same Need. */
module NeedKeys {
  import opened Text
  import opened Sorting

  predicate IsVillageSep(c: char) {
    c == ',' || c == ';'
  }

  predicate IsComma(c: char) {
    c == ','
  }

  function SplitVillages(value: string): seq<string> {
    Filter((v: string) => v != "", Map(Trim, SplitBy(IsVillageSep, value)))
  }

  function TitlePart(lower: CaseMap, title: string): string {
    lower(Trim(title))
  }

  function VillageNames(lower: CaseMap, village: string): seq<string> {
    Map(lower, SplitVillages(village))
  }

  function VillagePart(lower: CaseMap, village: string): string {
    Join(Sort(VillageNames(lower, village)), ",")
  }

  function RefPart(lower: CaseMap, referenceId: string): string {
    lower(Trim(referenceId))
  }

  const REF_PREFIX := "ref:"
  const TITLE_PREFIX := "title-village:"

  function DedupeKey(lower: CaseMap, title: string, village: string, referenceId: string): string {
    if RefPart(lower, referenceId) != "" then REF_PREFIX + RefPart(lower, referenceId)
    else TITLE_PREFIX + (TitlePart(lower, title) + "|" + VillagePart(lower, village))
  }

  // ---------------------------------------------------------------- village lists

  ghost predicate IsVillage(v: string) {
    v != "" && CleanEdges(IsSpace, v) && Without(IsVillageSep, v)
  }

  ghost predicate IsVillageList(vs: seq<string>) {
    forall i | 0 <= i < |vs| :: IsVillage(vs[i])
  }

  lemma {:induction false} TrimmedPieces(pieces: seq<string>)
    requires AllWithout(IsVillageSep, pieces)
    ensures IsVillageList(Filter((v: string) => v != "", Map(Trim, pieces)))
  {
    if pieces != [] {
      TrimmedPieces(pieces[1..]);
      var v := Trim(pieces[0]);
      TrimShape(IsSpace, pieces[0]);
      assert Without(IsVillageSep, pieces[0]);
      forall i | 0 <= i < |v| ensures !IsVillageSep(v[i]) {
        assert v[i] in pieces[0];
      }
    }
  }

  lemma SplitVillagesShape(value: string)
    ensures IsVillageList(SplitVillages(value))
  {
    SplitPieces(IsVillageSep, value);
    TrimmedPieces(SplitBy(IsVillageSep, value));
  }

  lemma SplitVillagesNone()
    ensures SplitVillages("") == []
  {
    assert SplitBy(IsVillageSep, "") == [""];
    assert [""][1..] == [];
    assert Map(Trim, [""]) == [""];
    assert Filter((v: string) => v != "", [""]) == [];
  }

  /** Text without a comma or a semicolon is one village, or none if it is blank; at each of them the list is cut. */
  lemma VillagesExactly(piece: string, sep: char, rest: string)
    requires ',' !in piece && ';' !in piece && sep in [',', ';']
    ensures SplitVillages(piece) == if Trim(piece) == "" then [] else [Trim(piece)]
    ensures SplitVillages(piece + [sep] + rest) == SplitVillages(piece) + SplitVillages(rest)
  {
    var nonEmpty := (v: string) => v != "";
    SplitNoSep(IsVillageSep, piece);
    SplitAtSep(IsVillageSep, piece, sep, rest);
    MapAppend(Trim, [piece], SplitBy(IsVillageSep, rest));
    FilterAppend(nonEmpty, Map(Trim, [piece]), Map(Trim, SplitBy(IsVillageSep, rest)));
    assert [piece][1..] == [] && [Trim(piece)][1..] == [];
    assert Map(Trim, [piece]) == [Trim(piece)];
    assert Filter(nonEmpty, [Trim(piece)]) == if Trim(piece) == "" then [] else [Trim(piece)];
  }

  /** A stored village list, joined with commas and split again, is the same list. */
  lemma Resplit(vs: seq<string>)
    requires IsVillageList(vs)
    ensures SplitVillages(Join(vs, ",")) == vs
  {
    var nonEmpty := (v: string) => v != "";
    if vs == [] {
      assert SplitBy(IsVillageSep, "") == [""];
      assert Map(Trim, [""]) == [""] by { assert [""][1..] == []; }
      assert Filter(nonEmpty, [""]) == [] by { assert [""][1..] == []; }
    } else {
      assert AllWithout(IsVillageSep, vs) by {
        forall i | 0 <= i < |vs| ensures Without(IsVillageSep, vs[i]) { assert IsVillage(vs[i]); }
      }
      SplitJoin(IsVillageSep, vs, ',');
      forall v | v in vs ensures Trim(v) == v && v != "" {
        assert IsVillage(v);
        TrimShape(IsSpace, v);
      }
      MapFixed(Trim, vs);
      FilterAll(nonEmpty, vs);
    }
  }

  // ---------------------------------------------------------------- joined lists determine their parts

  ghost predicate Joinable(parts: seq<string>) {
    forall p | p in parts :: p != "" && Without(IsComma, p)
  }

  lemma JoinInjective(a: seq<string>, b: seq<string>)
    requires Joinable(a) && Joinable(b)
    ensures Join(a, ",") == Join(b, ",") <==> a == b
  {
    if a != [] && b != [] {
      SplitJoin(IsComma, a, ',');
      SplitJoin(IsComma, b, ',');
    } else {
      assert a != [] ==> a[0] in a;
      assert b != [] ==> b[0] in b;
    }
  }

  lemma SortJoinable(xs: seq<string>)
    requires Joinable(xs)
    ensures Joinable(Sort(xs))
  {
    forall p | p in Sort(xs) ensures p in xs {
      assert p in multiset(Sort(xs));
    }
  }

  lemma {:induction false} LoweredJoinable(lower: CaseMap, vs: seq<string>)
    requires IsVillageList(vs)
    ensures Joinable(Map(lower, vs))
  {
    if vs != [] {
      LoweredJoinable(lower, vs[1..]);
      var v := lower(vs[0]);
      assert IsVillage(vs[0]);
      forall i | 0 <= i < |v| ensures !IsComma(v[i]) {
        if v[i] == ',' { LowerKeeps(lower, vs[0], ','); }
      }
    }
  }

  lemma SameVillages(lower: CaseMap, v1: string, v2: string)
    ensures VillagePart(lower, v1) == VillagePart(lower, v2)
       <==> multiset(VillageNames(lower, v1)) == multiset(VillageNames(lower, v2))
  {
    var a, b := VillageNames(lower, v1), VillageNames(lower, v2);
    SplitVillagesShape(v1);
    SplitVillagesShape(v2);
    LoweredJoinable(lower, SplitVillages(v1));
    LoweredJoinable(lower, SplitVillages(v2));
    SortJoinable(a);
    SortJoinable(b);
    JoinInjective(Sort(a), Sort(b));
    SortCanonical(a, b);
  }

  /** The parts of a key: title and reference id without surrounding white space and in lower case, and the villages,
      each in lower case. */
  lemma KeySpelling(lower: CaseMap, before: string, text: string, after: string, village: string, i: nat)
    requires CleanEdges(IsSpace, text)
    requires (forall c | c in before :: IsSpace(c)) && forall c | c in after :: IsSpace(c)
    requires i < |SplitVillages(village)|
    ensures TitlePart(lower, before + text + after) == lower(text)
    ensures RefPart(lower, before + text + after) == lower(text)
    ensures |VillageNames(lower, village)| == |SplitVillages(village)|
        && VillageNames(lower, village)[i] == lower(SplitVillages(village)[i])
  {
    TrimPadded(IsSpace, before, text, after);
    MapAt(lower, SplitVillages(village), i);
  }

  // ---------------------------------------------------------------- when two keys are equal

  /** What a reader of the two Needs would call the same Need. */
  ghost predicate SameNeed(lower: CaseMap, t1: string, v1: string, r1: string, t2: string, v2: string, r2: string) {
    if RefPart(lower, r1) != "" || RefPart(lower, r2) != "" then
      RefPart(lower, r1) == RefPart(lower, r2)
    else
      TitlePart(lower, t1) == TitlePart(lower, t2)
      && multiset(VillageNames(lower, v1)) == multiset(VillageNames(lower, v2))
  }

  /** The bar that ends the title in one key stands inside the village list of the other. */
  ghost predicate BarShift(t1: string, v1: string, t2: string, v2: string) {
    |t1| < |t2| && t2[..|t1| + 1] == t1 + "|" && v1 == t2[|t1| + 1..] + "|" + v2
  }

  lemma {:induction false} BarredEqual(t1: string, v1: string, t2: string, v2: string)
    requires |t1| <= |t2|
    ensures t1 + "|" + v1 == t2 + "|" + v2 <==> (t1 == t2 && v1 == v2) || BarShift(t1, v1, t2, v2)
  {
    var a, b := t1 + "|" + v1, t2 + "|" + v2;
    var k := |t1|;
    if BarShift(t1, v1, t2, v2) {
      assert t2 == t2[..k + 1] + t2[k + 1..];
      assert b == t1 + "|" + (t2[k + 1..] + "|" + v2);
    }
    if a == b {
      assert t1 == a[..k] && v1 == a[k + 1..] && t2 == b[..|t2|] && v2 == b[|t2| + 1..];
      if k < |t2| {
        assert t2[..k + 1] == b[..k + 1] == a[..k + 1] == t1 + "|";
        assert v1 == b[k + 1..] == t2[k + 1..] + "|" + v2;
      } else {
        assert t2 == b[..k] == a[..k];
      }
    }
  }

  lemma PrefixesDiffer(x: string, y: string)
    ensures REF_PREFIX + x != TITLE_PREFIX + y
    ensures REF_PREFIX + x == REF_PREFIX + y <==> x == y
    ensures TITLE_PREFIX + x == TITLE_PREFIX + y <==> x == y
  {
    assert (REF_PREFIX + x)[0] == 'r' && (TITLE_PREFIX + y)[0] == 't';
    assert (REF_PREFIX + x)[4..] == x && (REF_PREFIX + y)[4..] == y;
    assert (TITLE_PREFIX + x)[14..] == x && (TITLE_PREFIX + y)[14..] == y;
  }

  ghost predicate Collides(lower: CaseMap, t1: string, v1: string, r1: string, t2: string, v2: string, r2: string) {
    && RefPart(lower, r1) == "" && RefPart(lower, r2) == ""
    && BarShift(TitlePart(lower, t1), VillagePart(lower, v1), TitlePart(lower, t2), VillagePart(lower, v2))
  }

  /** Keys are equal exactly for the same Need, apart from one family of collisions through '|'. */
  lemma KeyEquality(lower: CaseMap, t1: string, v1: string, r1: string, t2: string, v2: string, r2: string)
    ensures DedupeKey(lower, t1, v1, r1) == DedupeKey(lower, t2, v2, r2)
       <==> SameNeed(lower, t1, v1, r1, t2, v2, r2)
            || Collides(lower, t1, v1, r1, t2, v2, r2) || Collides(lower, t2, v2, r2, t1, v1, r1)
    ensures Collides(lower, t1, v1, r1, t2, v2, r2) ==> !SameNeed(lower, t1, v1, r1, t2, v2, r2)
  {
    var a, b := TitlePart(lower, t1), TitlePart(lower, t2);
    var p, q := VillagePart(lower, v1), VillagePart(lower, v2);
    var x, y := RefPart(lower, r1), RefPart(lower, r2);
    SameVillages(lower, v1, v2);
    PrefixesDiffer(x, y);
    PrefixesDiffer(x, b + "|" + q);
    PrefixesDiffer(y, a + "|" + p);
    PrefixesDiffer(a + "|" + p, b + "|" + q);
    if |a| <= |b| {
      BarredEqual(a, p, b, q);
    } else {
      BarredEqual(b, q, a, p);
    }
  }

  lemma BarInTitle(lower: CaseMap, t1: string, v1: string, t2: string, v2: string)
    requires BarShift(TitlePart(lower, t1), VillagePart(lower, v1), TitlePart(lower, t2), VillagePart(lower, v2))
    ensures '|' in t2
  {
    var a, t := TitlePart(lower, t1), TitlePart(lower, t2);
    assert (a + "|")[|a|] == '|';
    assert t[|a|] == t[..|a| + 1][|a|] == '|';
    LowerKeeps(lower, Trim(t2), '|');
    TrimShape(IsSpace, t2);
  }

  /** Titles without a bar: equal keys mean the same Need, and only then. */
  lemma KeyExact(lower: CaseMap, t1: string, v1: string, r1: string, t2: string, v2: string, r2: string)
    requires '|' !in t1 && '|' !in t2
    ensures DedupeKey(lower, t1, v1, r1) == DedupeKey(lower, t2, v2, r2)
       <==> SameNeed(lower, t1, v1, r1, t2, v2, r2)
  {
    KeyEquality(lower, t1, v1, r1, t2, v2, r2);
    if Collides(lower, t1, v1, r1, t2, v2, r2) { BarInTitle(lower, t1, v1, t2, v2); }
    if Collides(lower, t2, v2, r2, t1, v1, r1) { BarInTitle(lower, t2, v2, t1, v1); }
  }

  lemma OneVillage(lower: CaseMap, v: string)
    requires IsVillage(v) && lower(v) == v
    ensures VillageNames(lower, v) == [v] && VillagePart(lower, v) == v
  {
    Resplit([v]);
    assert Join([v], ",") == v;
    assert SplitVillages(v) == [v] && [v][1..] == [];
    assert Sort([v]) == [v];
  }

  ghost predicate Normal(lower: CaseMap, t: string) {
    t != "" && CleanEdges(IsSpace, t) && lower(t) == t
  }

  /** Moving a bar from a title into the village gives a different Need the same key. */
  lemma BarMoves(lower: CaseMap, title: string, mid: string, village: string)
    requires Normal(lower, title) && Normal(lower, title + "|" + mid)
    requires IsVillage(village) && lower(village) == village
    requires IsVillage(mid + "|" + village) && lower(mid + "|" + village) == mid + "|" + village
    ensures DedupeKey(lower, title + "|" + mid, village, "") == DedupeKey(lower, title, mid + "|" + village, "")
    ensures !SameNeed(lower, title + "|" + mid, village, "", title, mid + "|" + village, "")
  {
    var longTitle, longVillage := title + "|" + mid, mid + "|" + village;
    assert TitlePart(lower, title) == title && TitlePart(lower, longTitle) == longTitle by {
      TrimShape(IsSpace, title);
      TrimShape(IsSpace, longTitle);
    }
    OneVillage(lower, village);
    OneVillage(lower, longVillage);
    assert RefPart(lower, "") == "" by { assert Trim("") == ""; }
    assert longTitle[..|title| + 1] == title + "|" && longTitle[|title| + 1..] == mid;
    KeyEquality(lower, title, longVillage, "", longTitle, village, "");
  }

  /** A bar in a title can make two different Needs share a key. */
  lemma BarCollision(lower: CaseMap)
    ensures DedupeKey(lower, "a|b", "c", "") == DedupeKey(lower, "a", "b|c", "")
    ensures !SameNeed(lower, "a|b", "c", "", "a", "b|c", "")
  {
    assert "a" + "|" + "b" == "a|b" && "b" + "|" + "c" == "b|c";
    assert IsCaseMap(lower);
    BarMoves(lower, "a", "b", "c");
  }
}
