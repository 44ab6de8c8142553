/** The folds that the compiled report is built from.

    A JavaScript Map that is listed later keeps its insertion order. */
module ReportFolds {
  import opened Wrappers
  import opened Text
  import opened Ranking

  // ---------------------------------------------------------------- last activity per organisation

  datatype Activity = Activity(orgId: string, at: Option<int>)

  function Flatten<A>(xss: seq<seq<A>>): seq<A> {
    if xss == [] then [] else xss[0] + Flatten(xss[1..])
  }

  /** The organisation's entry is the latest of its dates, or empty when it is listed without any. */
  ghost predicate IsLatest(entries: seq<Activity>, orgId: string, at: Option<int>) {
    match at
    case None => forall e | e in entries && e.orgId == orgId :: e.at == None
    case Some(t) => Activity(orgId, Some(t)) in entries && forall e | e in entries && e.orgId == orgId && e.at.Some? ::
        e.at.value <= t
  }

  ghost predicate IsMerge(entries: seq<Activity>, result: map<string, Option<int>>) {
    && (forall e | e in entries :: e.orgId in result)
    && (forall orgId | orgId in result ::
        (exists e :: e in entries && e.orgId == orgId) && IsLatest(entries, orgId, result[orgId]))
  }

  function Merged(result: map<string, Option<int>>, e: Activity): map<string, Option<int>> {
    if e.at == None then (if e.orgId in result then result else result[e.orgId := None])
    else if e.orgId !in result || result[e.orgId] == None || e.at.value > result[e.orgId].value
        then result[e.orgId := e.at]
    else result
  }

  lemma MergedOk(entries: seq<Activity>, result: map<string, Option<int>>, e: Activity)
    requires IsMerge(entries, result)
    ensures IsMerge(entries + [e], Merged(result, e))
  {
    var all, next := entries + [e], Merged(result, e);
    assert e in all;
    forall x | x in entries ensures x in all {
    }
    forall orgId | orgId in next ensures (exists x :: x in all && x.orgId == orgId)
        && IsLatest(all, orgId, next[orgId]) {
      if orgId in result {
        var x :| x in entries && x.orgId == orgId;
        assert x in all && IsLatest(entries, orgId, result[orgId]);
      } else {
        assert forall x | x in entries :: x.orgId != orgId;
      }
    }
  }

  method MergeLastActivity(sources: seq<seq<Activity>>) returns (result: map<string, Option<int>>)
    ensures IsMerge(Flatten(sources), result)
  {
    hide IsMerge;
    result := map[];
    MergedNothing();
    assert sources[..0] == [];
    for i := 0 to |sources|
      invariant IsMerge(Flatten(sources[..i]), result)
    {
      var source := sources[i];
      ghost var before := Flatten(sources[..i]);
      assert before + source[..0] == before;
      for k := 0 to |source|
        invariant IsMerge(before + source[..k], result)
      {
        var orgId, at := source[k].orgId, source[k].at;
        MergedOk(before + source[..k], result, source[k]);
        assert before + source[..k + 1] == before + source[..k] + [source[k]];
        if at == None {
          if orgId !in result { result := result[orgId := None]; }
          continue;
        }
        if orgId !in result || result[orgId] == None || at.value > result[orgId].value {
          result := result[orgId := at];
        }
      }
      assert source[..|source|] == source;
      FlattenSnoc(sources[..i], source);
      assert sources[..i + 1] == sources[..i] + [source];
    }
    assert sources[..|sources|] == sources;
  }

  lemma MergedNothing()
    ensures IsMerge([], map[])
  {
  }

  lemma {:induction false} FlattenSnoc<A>(xss: seq<seq<A>>, xs: seq<A>)
    ensures Flatten(xss + [xs]) == Flatten(xss) + xs
  {
    if xss == [] {
      assert [xs][1..] == [] && xs + [] == xs;
    } else {
      assert (xss + [xs])[1..] == xss[1..] + [xs];
      FlattenSnoc(xss[1..], xs);
      Assoc(xss[0], Flatten(xss[1..]), xs);
    }
  }

  /** The merge depends only on which entries there are, not on their sources, order or number. */
  lemma MergeUnique(entries: seq<Activity>, others: seq<Activity>, r: map<string, Option<int>>,
                    q: map<string, Option<int>>)
    requires IsMerge(entries, r) && IsMerge(others, q)
    requires forall e :: e in entries <==> e in others
    ensures r == q
  {
    forall orgId | orgId in r || orgId in q ensures orgId in r && orgId in q && r[orgId] == q[orgId] {
      if orgId in r { var e :| e in entries && e.orgId == orgId; assert e in others; }
      if orgId in q { var e :| e in others && e.orgId == orgId; assert e in entries; }
      SameLatest(entries, others, orgId, r[orgId], q[orgId]);
    }
    assert r.Keys == q.Keys;
  }

  lemma SameLatest(entries: seq<Activity>, others: seq<Activity>, orgId: string, a: Option<int>, b: Option<int>)
    requires IsLatest(entries, orgId, a) && IsLatest(others, orgId, b)
    requires forall e :: e in entries <==> e in others
    ensures a == b
  {
    if a.Some? { assert Activity(orgId, a) in others; }
    if b.Some? { assert Activity(orgId, b) in entries; }
  }

  // ---------------------------------------------------------------- the latest assessment of each village

  datatype Assessment = Assessment(surveyId: string, villageId: string, score: real, status: string)

  /** The row is a named village's first, and so its latest. */
  predicate IsFirst(sample: seq<Assessment>, i: nat)
    requires i < |sample|
  {
    sample[i].villageId != "" && forall k | 0 <= k < i :: sample[k].villageId != sample[i].villageId
  }

  function LatestRows(sample: seq<Assessment>): seq<Assessment> {
    if sample == [] then []
    else
      var n := |sample| - 1;
      LatestRows(sample[..n]) + if IsFirst(sample, n) then [sample[n]] else []
  }

  function Villages(sample: seq<Assessment>): set<string> {
    set i | 0 <= i < |sample| && sample[i].villageId != "" :: sample[i].villageId
  }

  method LatestByVillage(sample: seq<Assessment>) returns (latest: seq<Assessment>)
    ensures latest == LatestRows(sample)
  {
    latest := [];
    var has: set<string> := {};
    for i := 0 to |sample|
      invariant latest == LatestRows(sample[..i])
      invariant forall v :: v in has <==> exists k | 0 <= k < i :: sample[k].villageId == v && v != ""
    {
      var row := sample[i];
      assert sample[..i + 1][..i] == sample[..i];
      if row.villageId == "" || row.villageId in has { continue; }
      has := has + {row.villageId};
      latest := latest + [row];
    }
    assert sample[..|sample|] == sample;
  }

  /** There is one latest row for each named village. */
  lemma {:induction false} LatestRowsCount(sample: seq<Assessment>)
    ensures |LatestRows(sample)| == |Villages(sample)|
  {
    if sample == [] {
      assert Villages(sample) == {};
    } else {
      var n := |sample| - 1;
      LatestRowsCount(sample[..n]);
      VillagesSnoc(sample[..n], sample[n]);
      assert sample == sample[..n] + [sample[n]];
      NewVillage(sample, n);
      hide IsFirst, Villages;
      OneMore(Villages(sample[..n]), sample[n].villageId);
    }
  }

  lemma OneMore(set0: set<string>, x: string)
    ensures |set0 + {x}| == |set0| + if x in set0 then 0 else 1
    ensures set0 + {} == set0
  {
    if x in set0 { assert set0 + {x} == set0; }
  }

  lemma NewVillage(sample: seq<Assessment>, n: nat)
    requires n < |sample|
    ensures IsFirst(sample, n) <==> sample[n].villageId != "" && sample[n].villageId !in Villages(sample[..n])
  {
    if sample[n].villageId !in Villages(sample[..n]) {
      forall k | 0 <= k < n && sample[n].villageId != "" ensures sample[k].villageId != sample[n].villageId {
        if sample[k].villageId != "" { assert sample[..n][k].villageId in Villages(sample[..n]); }
      }
    }
  }

  lemma VillagesSnoc(sample: seq<Assessment>, row: Assessment)
    ensures Villages(sample + [row]) == Villages(sample) + if row.villageId == "" then {} else {row.villageId}
  {
    var all := sample + [row];
    forall v | v in Villages(sample) ensures v in Villages(all) {
      var i :| 0 <= i < |sample| && sample[i].villageId != "" && sample[i].villageId == v;
      assert all[i].villageId == v;
    }
    assert all[|sample|] == row;
  }

  /** `latest` are the rows of the sample at the places `at`: the first place of each named village, in order. */
  ghost predicate FirstPlaces(sample: seq<Assessment>, latest: seq<Assessment>, at: seq<nat>) {
    && |at| == |latest|
    && (forall k, l | 0 <= k < l < |at| :: at[k] < at[l])
    && (forall k | 0 <= k < |at| :: at[k] < |sample| && latest[k] == sample[at[k]])
    && (forall i ::
          i in at
          <==> && 0 <= i < |sample| && sample[i].villageId != ""
               && forall j | 0 <= j < i :: sample[j].villageId != sample[i].villageId)
  }

  ghost predicate AreLatest(sample: seq<Assessment>, latest: seq<Assessment>) {
    exists at: seq<nat> :: FirstPlaces(sample, latest, at)
  }

  lemma FirstPlacesSnoc(sample: seq<Assessment>, latest: seq<Assessment>, at: seq<nat>)
    requires sample != [] && FirstPlaces(sample[..|sample| - 1], latest, at)
    ensures var n := |sample| - 1;
      if IsFirst(sample, n) then FirstPlaces(sample, latest + [sample[n]], at + [n])
      else FirstPlaces(sample, latest, at)
  {
    var n := |sample| - 1;
    forall k | 0 <= k < |at| ensures at[k] < n && latest[k] == sample[at[k]] {
      assert sample[..n][at[k]] == sample[at[k]];
    }
    forall i | 0 <= i < n
      ensures i in at
         <==> sample[i].villageId != "" && forall j | 0 <= j < i :: sample[j].villageId != sample[i].villageId
    {
      assert sample[..n][i] == sample[i] && forall j | 0 <= j < i :: sample[..n][j] == sample[j];
    }
  }

  /** The latest rows are those of the first place of each named village, in the sample's order. */
  lemma {:induction false} LatestExactly(sample: seq<Assessment>)
    ensures AreLatest(sample, LatestRows(sample))
  {
    if sample == [] {
      assert FirstPlaces(sample, [], []);
    } else {
      var n := |sample| - 1;
      var some := LatestRows(sample[..n]);
      LatestExactly(sample[..n]);
      hide FirstPlaces, IsFirst;
      var at: seq<nat> :| FirstPlaces(sample[..n], some, at);
      FirstPlacesSnoc(sample, some, at);
      assert some + [] == some;
    }
  }

  // ---------------------------------------------------------------- villages by status

  datatype StatusCount = StatusCount(status: string, count: nat)

  function CountOf(rows: seq<Assessment>, status: string): nat {
    if rows == [] then 0
    else CountOf(rows[..|rows| - 1], status) + if rows[|rows| - 1].status == status then 1 else 0
  }

  function SumOf(counts: seq<StatusCount>): nat {
    if counts == [] then 0 else counts[0].count + SumOf(counts[1..])
  }

  ghost predicate NoRepeats(order: seq<string>) {
    forall i, j | 0 <= i < j < |order| :: order[i] != order[j]
  }

  /** The statuses that occur, in order of first occurrence. */
  ghost predicate Lists(order: seq<string>, rows: seq<Assessment>) {
    NoRepeats(order) && forall s :: s in order <==> CountOf(rows, s) > 0
  }

  function Entries(order: seq<string>, rows: seq<Assessment>): seq<StatusCount> {
    if order == [] then [] else [StatusCount(order[0], CountOf(rows, order[0]))] + Entries(order[1..], rows)
  }

  lemma CountSnoc(rows: seq<Assessment>, row: Assessment, status: string)
    ensures CountOf(rows + [row], status) == CountOf(rows, status) + if row.status == status then 1 else 0
  {
    assert (rows + [row])[..|rows|] == rows;
  }

  /** A further row is counted once, under its own status. */
  lemma {:induction false} SumSnoc(order: seq<string>, rows: seq<Assessment>, row: Assessment)
    requires NoRepeats(order)
    ensures SumOf(Entries(order, rows + [row])) == SumOf(Entries(order, rows)) + if row.status in order then 1 else 0
  {
    if order != [] {
      CountSnoc(rows, row, order[0]);
      SumSnoc(order[1..], rows, row);
      SumCons(order, rows);
      SumCons(order, rows + [row]);
      hide SumOf, Entries, CountOf;
      assert row.status in order <==> row.status == order[0] || row.status in order[1..];
    }
  }

  lemma SumCons(order: seq<string>, rows: seq<Assessment>)
    requires order != []
    ensures SumOf(Entries(order, rows)) == CountOf(rows, order[0]) + SumOf(Entries(order[1..], rows))
  {
    assert Entries(order, rows)[1..] == Entries(order[1..], rows);
  }

  ghost function RowsWith(rows: seq<Assessment>, status: string): set<int> {
    set i | 0 <= i < |rows| && rows[i].status == status
  }

  /** A count is the number of rows with the status. */
  lemma {:induction false} CountExactly(rows: seq<Assessment>, status: string)
    ensures CountOf(rows, status) == |RowsWith(rows, status)|
  {
    if rows != [] {
      var n := |rows| - 1;
      CountExactly(rows[..n], status);
      forall i | 0 <= i < n ensures i in RowsWith(rows, status) <==> i in RowsWith(rows[..n], status) {
        assert rows[..n][i] == rows[i];
      }
      assert RowsWith(rows, status) == RowsWith(rows[..n], status) + if rows[n].status == status then {n} else {};
    }
  }

  /** The counts add up to the rows when every status is listed once. */
  lemma {:induction false} SumIsTotal(order: seq<string>, rows: seq<Assessment>)
    requires NoRepeats(order) && forall r | r in rows :: r.status in order
    ensures SumOf(Entries(order, rows)) == |rows|
  {
    if rows == [] {
      SumOfNothing(order);
    } else {
      var n := |rows| - 1;
      assert rows == rows[..n] + [rows[n]];
      SumIsTotal(order, rows[..n]);
      SumSnoc(order, rows[..n], rows[n]);
    }
  }

  lemma {:induction false} SumOfNothing(order: seq<string>)
    ensures SumOf(Entries(order, [])) == 0
  {
    if order != [] {
      SumOfNothing(order[1..]);
      assert Entries(order, [])[1..] == Entries(order[1..], []);
    }
  }

  lemma {:induction false} CountPositive(rows: seq<Assessment>, r: Assessment)
    requires r in rows
    ensures CountOf(rows, r.status) > 0
  {
    var n := |rows| - 1;
    if r != rows[n] {
      assert rows == rows[..n] + [rows[n]];
      CountPositive(rows[..n], r);
    }
  }

  lemma {:induction false} EntriesAt(order: seq<string>, rows: seq<Assessment>)
    ensures |Entries(order, rows)| == |order|
    ensures forall i | 0 <= i < |order| :: Entries(order, rows)[i] == StatusCount(order[i], CountOf(rows, order[i]))
  {
    if order != [] {
      EntriesAt(order[1..], rows);
    }
  }

  function Descending(): StatusCount -> real {
    (c: StatusCount) => -(c.count as real)
  }

  lemma {:induction false} SumOfSorted(counts: seq<StatusCount>)
    ensures SumOf(SortBy(Descending(), counts)) == SumOf(counts)
  {
    if counts != [] {
      SumOfSorted(counts[1..]);
      SumOfInserted(counts[0], SortBy(Descending(), counts[1..]));
    }
  }

  lemma {:induction false} SumOfInserted(c: StatusCount, counts: seq<StatusCount>)
    ensures SumOf(Insert(Descending(), c, counts)) == c.count + SumOf(counts)
  {
    if counts == [] || Descending()(c) <= Descending()(counts[0]) {
      assert ([c] + counts)[1..] == counts;
    } else {
      SumOfInserted(c, counts[1..]);
      assert ([counts[0]] + Insert(Descending(), c, counts[1..]))[1..] == Insert(Descending(), c, counts[1..]);
    }
  }

  ghost predicate OncePerStatus(counts: seq<StatusCount>) {
    forall i, j | 0 <= i < j < |counts| :: counts[i].status != counts[j].status
  }

  lemma {:induction false} InsertOnce(c: StatusCount, counts: seq<StatusCount>)
    requires OncePerStatus(counts) && forall d | d in counts :: d.status != c.status
    ensures OncePerStatus(Insert(Descending(), c, counts))
  {
    if counts != [] && Descending()(c) > Descending()(counts[0]) {
      var rest := Insert(Descending(), c, counts[1..]);
      InsertOnce(c, counts[1..]);
      InsertContents(Descending(), c, counts[1..]);
      forall j | 0 <= j < |rest| ensures counts[0].status != rest[j].status {
        assert rest[j] in rest;
      }
    }
  }

  lemma {:induction false} SortOnce(counts: seq<StatusCount>)
    requires OncePerStatus(counts)
    ensures OncePerStatus(SortBy(Descending(), counts))
  {
    if counts != [] {
      SortOnce(counts[1..]);
      SortByOk(Descending(), counts[1..], 0.0);
      SameMembers(SortBy(Descending(), counts[1..]), counts[1..]);
      InsertOnce(counts[0], SortBy(Descending(), counts[1..]));
    }
  }

  /** Each status that occurs has one entry with the number of its rows, the entries add up to the rows,
      and none has a greater count than one before it. */
  ghost predicate IsBreakdown(rows: seq<Assessment>, byStatus: seq<StatusCount>) {
    && (forall c :: c in byStatus <==> c.count == CountOf(rows, c.status) > 0)
    && OncePerStatus(byStatus)
    && SumOf(byStatus) == |rows|
    && GreatestFirst(byStatus)
  }

  method ByStatus(latest: seq<Assessment>) returns (byStatus: seq<StatusCount>)
    ensures IsBreakdown(latest, byStatus)
  {
    var counts: map<string, nat> := map[];
    var order: seq<string> := [];
    for i := 0 to |latest|
      invariant forall s :: s in counts <==> s in order
      invariant forall s | s in counts :: counts[s] == CountOf(latest[..i], s)
      invariant Lists(order, latest[..i])
    {
      var status := latest[i].status;
      assert latest[..i + 1] == latest[..i] + [latest[i]];
      forall s ensures CountOf(latest[..i + 1], s) == CountOf(latest[..i], s) + if s == status then 1 else 0 {
        CountSnoc(latest[..i], latest[i], s);
      }
      if status !in counts { order := order + [status]; }
      counts := counts[status := (if status in counts then counts[status] else 0) + 1];
    }
    assert latest[..|latest|] == latest;
    var entries := seq(|order|, i requires 0 <= i < |order| => StatusCount(order[i], counts[order[i]]));
    EntriesAt(order, latest);
    assert entries == Entries(order, latest);
    byStatus := SortBy(Descending(), entries);
    SortedBreakdown(latest, order);
  }

  lemma EntriesMembers(order: seq<string>, rows: seq<Assessment>)
    requires Lists(order, rows)
    ensures forall c :: c in Entries(order, rows) <==> c.count == CountOf(rows, c.status) > 0
  {
    var entries := Entries(order, rows);
    EntriesAt(order, rows);
    hide Entries;
    forall c ensures c in entries <==> c.count == CountOf(rows, c.status) > 0 {
      if c.count == CountOf(rows, c.status) > 0 {
        var i :| 0 <= i < |order| && order[i] == c.status;
        assert entries[i] == c;
      }
    }
  }

  lemma AllListed(rows: seq<Assessment>, order: seq<string>)
    requires Lists(order, rows)
    ensures SumOf(Entries(order, rows)) == |rows|
  {
    forall r | r in rows ensures r.status in order {
      CountPositive(rows, r);
    }
    SumIsTotal(order, rows);
  }

  ghost predicate GreatestFirst(counts: seq<StatusCount>) {
    forall i, j | 0 <= i < j < |counts| :: counts[i].count >= counts[j].count
  }

  lemma DescendingCounts(counts: seq<StatusCount>)
    requires Ascending(Descending(), counts)
    ensures GreatestFirst(counts)
  {
    forall i, j | 0 <= i < j < |counts| ensures counts[i].count >= counts[j].count {
      assert Descending()(counts[i]) <= Descending()(counts[j]);
    }
  }

  lemma EntriesOnce(order: seq<string>, rows: seq<Assessment>)
    requires NoRepeats(order)
    ensures OncePerStatus(Entries(order, rows))
  {
    EntriesAt(order, rows);
  }

  lemma SortedBreakdown(rows: seq<Assessment>, order: seq<string>)
    requires Lists(order, rows)
    ensures IsBreakdown(rows, SortBy(Descending(), Entries(order, rows)))
  {
    hide SortBy, SumOf, Entries, CountOf, OncePerStatus, GreatestFirst, Ascending;
    var entries := Entries(order, rows);
    var byStatus := SortBy(Descending(), entries);
    EntriesMembers(order, rows);
    EntriesOnce(order, rows);
    AllListed(rows, order);
    SortByOk(Descending(), entries, 0.0);
    SumOfSorted(entries);
    SortOnce(entries);
    SameMembers(byStatus, entries);
    DescendingCounts(byStatus);
  }

  // ---------------------------------------------------------------- the villages with the highest priority

  const TOP_PRIORITY_VILLAGES_LIMIT := 10

  function Score(): Assessment -> real {
    (a: Assessment) => a.score
  }

  /** Both figures of the overview speak of the same rows: one latest assessment for each named village. */
  method BuildPriorityOverview(sample: seq<Assessment>) returns (byStatus: seq<StatusCount>, top: seq<Assessment>)
    ensures IsBreakdown(LatestRows(sample), byStatus)
    ensures SumOf(byStatus) == |Villages(sample)|
    ensures AreLatest(sample, LatestRows(sample))
    ensures exists rest :: IsTop(Score(), LatestRows(sample), TOP_PRIORITY_VILLAGES_LIMIT, top, rest)
    ensures IsTopTen(LatestRows(sample), top)
    ensures top <= SortBy(Score(), LatestRows(sample))
  {
    var latest := LatestByVillage(sample);
    byStatus := ByStatus(latest);
    LatestRowsCount(sample);
    top := Top(SortBy(Score(), latest), TOP_PRIORITY_VILLAGES_LIMIT);
    TopIsTop(Score(), latest, TOP_PRIORITY_VILLAGES_LIMIT);
    LatestExactly(sample);
    ByScore(latest, top, SortBy(Score(), latest)[|top|..]);
  }

  /** The rows of the table: the ten with the least score, or all if there are fewer, least first. */
  ghost predicate IsTopTen(latest: seq<Assessment>, top: seq<Assessment>) {
    && |top| == (if |latest| <= 10 then |latest| else 10)
    && (forall i, j | 0 <= i < j < |top| :: top[i].score <= top[j].score)
    && multiset(top) <= multiset(latest)
    && forall t, r | t in top && r in multiset(latest) - multiset(top) :: t.score <= r.score
  }

  lemma ByScore(latest: seq<Assessment>, top: seq<Assessment>, rest: seq<Assessment>)
    requires IsTop(Score(), latest, TOP_PRIORITY_VILLAGES_LIMIT, top, rest)
    ensures IsTopTen(latest, top)
  {
    forall i, j | 0 <= i < j < |top| ensures top[i].score <= top[j].score {
      assert Score()(top[i]) <= Score()(top[j]);
    }
    assert multiset(latest) - multiset(top) == multiset(rest);
    forall t, r | t in top && r in multiset(rest) ensures t.score <= r.score {
      assert r in rest;
      assert Score()(t) <= Score()(r);
    }
  }

  // ---------------------------------------------------------------- the assessment chosen for each Need

  /** The Need a row belongs to; a survey may have none. */
  function NeedOf(needIds: map<string, string>, row: Assessment): string {
    if row.surveyId in needIds then needIds[row.surveyId] else ""
  }

  /** Of the first `n` rows, the one at `i` belongs to the Need, and it is the first of the Need's consolidated rows,
      or the first of its rows if none is consolidated. */
  ghost predicate IsChosen(needIds: map<string, string>, sample: seq<Assessment>, n: nat, needId: string, i: nat)
    requires n <= |sample|
  {
    && i < n && NeedOf(needIds, sample[i]) == needId
    && if sample[i].villageId == ""
       then forall k | 0 <= k < i && NeedOf(needIds, sample[k]) == needId :: sample[k].villageId != ""
       else && (forall k | 0 <= k < i :: NeedOf(needIds, sample[k]) != needId)
            && forall k | 0 <= k < n && NeedOf(needIds, sample[k]) == needId :: sample[k].villageId != ""
  }

  ghost predicate Occurs(needIds: map<string, string>, sample: seq<Assessment>, n: nat, needId: string)
    requires n <= |sample|
  {
    exists i | 0 <= i < n :: NeedOf(needIds, sample[i]) == needId
  }

  method BestAssessmentByNeed(needIds: map<string, string>, sample: seq<Assessment>)
      returns (best: map<string, Assessment>)
    ensures forall needId :: needId in best <==> needId != "" && Occurs(needIds, sample, |sample|, needId)
    ensures forall needId :: needId in best <==> needId != "" && exists i | 0 <= i < |sample| ::
        sample[i].surveyId in needIds && needIds[sample[i].surveyId] == needId
    ensures forall needId | needId in best :: exists i | 0 <= i < |sample| ::
        IsChosen(needIds, sample, |sample|, needId, i) && best[needId] == sample[i]
  {
    hide IsChosen, NeedOf;
    best := map[];
    ghost var at: map<string, nat> := map[];
    for n := 0 to |sample|
      invariant forall needId :: needId in best <==> needId != "" && Occurs(needIds, sample, n, needId)
      invariant at.Keys == best.Keys
      invariant forall needId | needId in best ::
        at[needId] < n && IsChosen(needIds, sample, n, needId, at[needId]) && best[needId] == sample[at[needId]]
    {
      var row := sample[n];
      var needId := NeedOf(needIds, row);
      ghost var before := at;
      forall id ensures Occurs(needIds, sample, n + 1, id) <==> Occurs(needIds, sample, n, id) || id == needId {
      }
      forall id | id in before
        ensures id != needId || best[id].villageId == "" || row.villageId != ""
            ==> IsChosen(needIds, sample, n + 1, id, before[id])
        ensures id == needId && best[id].villageId != "" && row.villageId == ""
            ==> IsChosen(needIds, sample, n + 1, id, n)
      {
        ChosenNext(needIds, sample, n, id, before[id]);
      }
      if needId == "" { continue; }
      if needId !in best { ChosenFirst(needIds, sample, n); }
      if needId !in best || (best[needId].villageId != "" && row.villageId == "") {
        best := best[needId := row];
        at := at[needId := n];
      }
    }
    forall needId | needId != ""
      ensures Occurs(needIds, sample, |sample|, needId) <==> exists i | 0 <= i < |sample| ::
          sample[i].surveyId in needIds && needIds[sample[i].surveyId] == needId
    {
      OccursByColumns(needIds, sample, needId);
    }
  }

  lemma OccursByColumns(needIds: map<string, string>, sample: seq<Assessment>, needId: string)
    requires needId != ""
    ensures Occurs(needIds, sample, |sample|, needId) <==> exists i | 0 <= i < |sample| ::
        sample[i].surveyId in needIds && needIds[sample[i].surveyId] == needId
  {
    forall i | 0 <= i < |sample|
      ensures NeedOf(needIds, sample[i]) == needId
         <==> sample[i].surveyId in needIds && needIds[sample[i].surveyId] == needId
    {}
  }

  lemma ChosenFirst(needIds: map<string, string>, sample: seq<Assessment>, n: nat)
    requires n < |sample| && !Occurs(needIds, sample, n, NeedOf(needIds, sample[n]))
    ensures IsChosen(needIds, sample, n + 1, NeedOf(needIds, sample[n]), n)
  {
  }

  lemma ChosenNext(needIds: map<string, string>, sample: seq<Assessment>, n: nat, needId: string, i: nat)
    requires n < |sample| && IsChosen(needIds, sample, n, needId, i)
    ensures var better := NeedOf(needIds, sample[n]) == needId && sample[i].villageId != ""
        && sample[n].villageId == "";
      IsChosen(needIds, sample, n + 1, needId, if better then n else i)
  {
  }

  /** At most one row meets the description of the chosen one. */
  lemma ChosenUnique(needIds: map<string, string>, sample: seq<Assessment>, needId: string, i: nat, j: nat)
    requires IsChosen(needIds, sample, |sample|, needId, i) && IsChosen(needIds, sample, |sample|, needId, j)
    ensures i == j
  {
  }

  // ---------------------------------------------------------------- surveys by area

  datatype AreaLink = AreaLink(needId: string, areaId: string)

  /** The links of a Need to an area. */
  function LinkCount(links: seq<AreaLink>, needId: string, areaId: string): nat {
    if links == [] then 0
    else
      LinkCount(links[..|links| - 1], needId, areaId) + if links[|links| - 1] == AreaLink(needId, areaId) then 1 else 0
  }

  /** The pairs of a survey and a link of its Need to the area. */
  function PairCount(surveys: seq<string>, links: seq<AreaLink>, areaId: string): nat {
    if surveys == [] then 0
    else PairCount(surveys[..|surveys| - 1], links, areaId) + LinkCount(links, surveys[|surveys| - 1], areaId)
  }

  function Occurrences(ids: seq<string>, id: string): nat {
    if ids == [] then 0 else Occurrences(ids[..|ids| - 1], id) + if ids[|ids| - 1] == id then 1 else 0
  }

  lemma {:induction false} LinkExactly(links: seq<AreaLink>, needId: string, areaId: string)
    ensures LinkCount(links, needId, areaId) == multiset(links)[AreaLink(needId, areaId)]
  {
    if links != [] {
      var n := |links| - 1;
      LinkExactly(links[..n], needId, areaId);
      assert links == links[..n] + [links[n]];
    }
  }

  lemma {:induction false} OccursExactly(ids: seq<string>, id: string)
    ensures Occurrences(ids, id) == multiset(ids)[id]
  {
    if ids != [] {
      var n := |ids| - 1;
      OccursExactly(ids[..n], id);
      assert ids == ids[..n] + [ids[n]];
    }
  }

  ghost function Pairs(surveys: seq<string>, links: seq<AreaLink>, areaId: string): set<(int, int)> {
    set i, k | 0 <= i < |surveys| && 0 <= k < |links| && links[k] == AreaLink(surveys[i], areaId) :: (i, k)
  }

  lemma PairsSnoc(surveys: seq<string>, links: seq<AreaLink>, areaId: string)
    requires surveys != []
    ensures var n := |surveys| - 1; var last := LinksOfRow(links, surveys[n], areaId, n);
      Pairs(surveys, links, areaId) == Pairs(surveys[..n], links, areaId) + last
      && Pairs(surveys[..n], links, areaId) !! last
  {
    var n := |surveys| - 1;
    var all, before, last := Pairs(surveys, links, areaId), Pairs(surveys[..n], links, areaId),
        LinksOfRow(links, surveys[n], areaId, n);
    forall p ensures p in all <==> p in before || p in last {
      if p.0 != n && 0 <= p.0 < |surveys| { assert surveys[..n][p.0] == surveys[p.0]; }
    }
  }

  /** An area's surveys, counted as what they are: pairs of a survey and a link of its Need to the area. */
  lemma {:induction false} PairExactly(surveys: seq<string>, links: seq<AreaLink>, areaId: string)
    ensures PairCount(surveys, links, areaId) == |Pairs(surveys, links, areaId)|
  {
    if surveys == [] {
      assert Pairs(surveys, links, areaId) == {};
    } else {
      var n := |surveys| - 1;
      PairExactly(surveys[..n], links, areaId);
      PairsSnoc(surveys, links, areaId);
      LinksOfRowCount(links, surveys[n], areaId, n);
      hide Pairs, LinksOfRow;
    }
  }

  ghost function LinksOfRow(links: seq<AreaLink>, needId: string, areaId: string, n: nat): set<(int, int)> {
    set k | 0 <= k < |links| && links[k] == AreaLink(needId, areaId) :: (n, k)
  }

  lemma {:induction false} LinksOfRowCount(links: seq<AreaLink>, needId: string, areaId: string, n: nat)
    ensures |LinksOfRow(links, needId, areaId, n)| == LinkCount(links, needId, areaId)
  {
    if links != [] {
      var m := |links| - 1;
      LinksOfRowCount(links[..m], needId, areaId, n);
      assert LinksOfRow(links, needId, areaId, n)
          == LinksOfRow(links[..m], needId, areaId, n) + if links[m] == AreaLink(needId, areaId) then {(n, m)} else {};
    }
  }

  /** The areas of each Need, gathered in one pass. */
  method AreasByNeed(links: seq<AreaLink>) returns (areas: map<string, seq<string>>)
    ensures forall needId, areaId ::
      Occurrences(if needId in areas then areas[needId] else [], areaId) == LinkCount(links, needId, areaId)
  {
    areas := map[];
    for i := 0 to |links|
      invariant forall needId, areaId ::
        Occurrences(if needId in areas then areas[needId] else [], areaId) == LinkCount(links[..i], needId, areaId)
    {
      var row := links[i];
      var list := if row.needId in areas then areas[row.needId] else [];
      assert links[..i + 1][..i] == links[..i] && (list + [row.areaId])[..|list|] == list;
      areas := areas[row.needId := list + [row.areaId]];
    }
    assert links[..|links|] == links;
  }

  lemma OccursNone(ids: seq<string>)
    ensures forall id :: Occurrences(ids[..0], id) == 0
  {
  }

  lemma OccursNext(ids: seq<string>, k: nat)
    requires k < |ids|
    ensures forall id :: Occurrences(ids[..k + 1], id) == Occurrences(ids[..k], id) + if id == ids[k] then 1 else 0
  {
    assert ids[..k + 1][..k] == ids[..k];
  }

  lemma PairsNone(links: seq<AreaLink>)
    ensures forall areaId :: PairCount([], links, areaId) == 0
  {
  }

  lemma PairsNext(surveys: seq<string>, links: seq<AreaLink>, i: nat)
    requires i < |surveys|
    ensures forall areaId :: PairCount(surveys[..i + 1], links, areaId)
                          == PairCount(surveys[..i], links, areaId) + LinkCount(links, surveys[i], areaId)
  {
    assert surveys[..i + 1][..i] == surveys[..i];
  }

  /** Surveys are counted for an area once for each link of their Need to it, and for no other area. */
  method SurveysByArea(surveys: seq<string>, links: seq<AreaLink>) returns (counts: map<string, nat>)
    ensures forall areaId :: (if areaId in counts then counts[areaId] else 0) == PairCount(surveys, links, areaId)
    ensures forall areaId | areaId in counts :: counts[areaId] > 0
  {
    hide PairCount, LinkCount, Occurrences;
    var areas := AreasByNeed(links);
    counts := map[];
    PairsNone(links);
    for i := 0 to |surveys|
      invariant forall areaId ::
        (if areaId in counts then counts[areaId] else 0) == PairCount(surveys[..i], links, areaId)
      invariant forall areaId | areaId in counts :: counts[areaId] > 0
    {
      var list := if surveys[i] in areas then areas[surveys[i]] else [];
      OccursNone(list);
      for k := 0 to |list|
        invariant forall areaId :: (if areaId in counts then counts[areaId] else 0)
                                == PairCount(surveys[..i], links, areaId) + Occurrences(list[..k], areaId)
        invariant forall areaId | areaId in counts :: counts[areaId] > 0
      {
        OccursNext(list, k);
        counts := counts[list[k] := (if list[k] in counts then counts[list[k]] else 0) + 1];
      }
      assert list[..|list|] == list;
      PairsNext(surveys, links, i);
    }
    assert surveys[..|surveys|] == surveys;
  }
}
