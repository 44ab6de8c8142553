/** Evidence rows in the database against evidence files on disk, with uploads and removals interleaved.

    A step is one action of one request: a database transaction, a file write or a file removal.
    Any request may stop for good between two of its steps. Needs are deleted too, and their evidence rows with them. */
module Evidence {
  import opened Wrappers

  const MAX_FILES := 10

  /** The content hash is left open. */
  type Digest = string -> string

  /** Rows older than the hash column have no hash. */
  datatype Row = Row(needId: nat, key: string, hash: Option<string>)

  datatype Prepared = Prepared(key: string, hash: string, duplicate: bool)

  datatype Request =
    | Counted(needId: nat, files: seq<string>)
    | Saving(needId: nat, todo: seq<string>, seen: set<string>, prepared: seq<Prepared>)
    | Unlinking(keys: set<string>)
    | Over
  {
    /** The files the request still has to answer for. */
    ghost predicate Holds(key: string) {
      match this
      case Saving(_, _, _, prepared) => exists i | 0 <= i < |prepared| :: prepared[i].key == key
      case Unlinking(keys) => key in keys
      case _ => false
    }
  }

  datatype Owner = OfRow(id: nat) | OfRequest(rid: nat) | Nobody

  /** `owners` is history: every storage key ever drawn, and who answers for it. `gone` are the deleted Needs. */
  datatype State = State(disk: map<string, string>, rows: map<nat, Row>, requests: map<nat, Request>,
                         owners: map<string, Owner>, gone: set<nat>)

  datatype SaveResult = Saved | NotSaved(partial: Option<string>)

  datatype Event =
    | Begin(rid: nat, needId: nat, files: seq<string>, editable: bool)
    | ReadHashes(rid: nat)
    | Save(rid: nat, key: string, result: SaveResult)
    | Commit(rid: nat, ids: seq<nat>, ok: bool)
    | Unlink(rid: nat, key: string, ok: bool)
    | RemoveRow(rid: nat, id: nat, editable: bool)
    | RemoveNeeds(rid: nat, needIds: set<nat>, deletable: bool)
    | Crash(rid: nat)

  // ---------------------------------------------------------------- steps

  function RowsOf(rows: map<nat, Row>, needId: nat): set<nat> {
    set id | id in rows && rows[id].needId == needId
  }

  function HashesOf(rows: map<nat, Row>, needId: nat): set<string> {
    set id | id in rows && rows[id].needId == needId && rows[id].hash.Some? :: rows[id].hash.value
  }

  function KeysOf(prepared: seq<Prepared>): set<string> {
    set i | 0 <= i < |prepared| :: prepared[i].key
  }

  predicate Distinct<T(==)>(xs: seq<T>) {
    forall i, j | 0 <= i < j < |xs| :: xs[i] != xs[j]
  }

  function Go(s: State, rid: nat, r: Request): State {
    s.(requests := s.requests[rid := r])
  }

  function SaveOn(digest: Digest, s: State, rid: nat, r: Request, key: string, result: SaveResult): State
    requires r.Saving? && r.todo != []
  {
    match result
    case Saved =>
      var hash := digest(r.todo[0]);
      Go(s, rid, Saving(r.needId, r.todo[1..], r.seen + {hash}, r.prepared + [Prepared(key, hash, hash in r.seen)]))
        .(disk := s.disk[key := r.todo[0]], owners := s.owners[key := OfRequest(rid)])
    case NotSaved(partial) =>
      Go(s, rid, Unlinking(KeysOf(r.prepared)))
        .(disk := if partial.Some? then s.disk[key := partial.value] else s.disk, owners := s.owners[key := Nobody])
  }

  function Inserted(rows: map<nat, Row>, needId: nat, prepared: seq<Prepared>, ids: seq<nat>): map<nat, Row>
    requires |ids| == |prepared|
    decreases |ids|
  {
    if ids == [] then rows
    else
      var n := |ids| - 1;
      Inserted(rows, needId, prepared[..n], ids[..n])[ids[n] := Row(needId, prepared[n].key, Some(prepared[n].hash))]
  }

  function HandedOver(owners: map<string, Owner>, prepared: seq<Prepared>, ids: seq<nat>): map<string, Owner>
    requires |ids| == |prepared|
    decreases |ids|
  {
    if ids == [] then owners
    else
      var n := |ids| - 1;
      HandedOver(owners, prepared[..n], ids[..n])[prepared[n].key := OfRow(ids[n])]
  }

  function CommitOn(s: State, rid: nat, needId: nat, prepared: seq<Prepared>, ids: seq<nat>): State
    requires |ids| == |prepared|
  {
    Go(s, rid, Over).(rows := Inserted(s.rows, needId, prepared, ids), owners := HandedOver(s.owners, prepared, ids))
  }

  predicate FreshIds(s: State, ids: seq<nat>) {
    Distinct(ids) && forall i | 0 <= i < |ids| :: ids[i] !in s.rows
  }

  function KeysOfNeeds(rows: map<nat, Row>, needIds: set<nat>): set<string> {
    set id | id in rows && rows[id].needId in needIds :: rows[id].key
  }

  /** Needs are deleted, one alone or all those of a study: the rows go by cascade, and nothing unlinks their files. */
  function RemoveNeedsOn(s: State, rid: nat, needIds: set<nat>): State {
    var keys := KeysOfNeeds(s.rows, needIds);
    Go(s, rid, Over).(rows := map id | id in s.rows && s.rows[id].needId !in needIds :: s.rows[id],
                      owners := map key | key in s.owners :: if key in keys then Nobody else s.owners[key],
                      gone := s.gone + needIds)
  }

  function Step(digest: Digest, s: State, e: Event): State {
    match e
    case Begin(rid, needId, files, editable) =>
      if rid in s.requests then s
      else if editable && needId !in s.gone && |RowsOf(s.rows, needId)| + |files| <= MAX_FILES then
        Go(s, rid, Counted(needId, files))
      else Go(s, rid, Over)
    case RemoveRow(rid, id, editable) =>
      if rid in s.requests then s
      else if id !in s.rows || !editable then Go(s, rid, Over)
      else
        var key := s.rows[id].key;
        Go(s, rid, Unlinking({key})).(rows := s.rows - {id}, owners := s.owners[key := OfRequest(rid)])
    case RemoveNeeds(rid, needIds, deletable) =>
      if rid in s.requests then s
      else if !deletable then Go(s, rid, Over)
      else RemoveNeedsOn(s, rid, needIds)
    case _ => if e.rid in s.requests then Act(digest, s, e, s.requests[e.rid]) else s
  }

  function Act(digest: Digest, s: State, e: Event, r: Request): State {
    match (e, r)
    case (ReadHashes(rid), Counted(needId, files)) => Go(s, rid, Saving(needId, files, HashesOf(s.rows, needId), []))
    case (Save(rid, key, result), Saving(_, todo, _, _)) =>
      if todo == [] || key in s.owners then s else SaveOn(digest, s, rid, r, key, result)
    case (Commit(rid, ids, ok), Saving(needId, todo, _, prepared)) =>
      if todo != [] then s
      else if !ok || needId in s.gone then Go(s, rid, Unlinking(KeysOf(prepared)))
      else if |ids| != |prepared| || !FreshIds(s, ids) then s
      else CommitOn(s, rid, needId, prepared, ids)
    case (Unlink(rid, key, ok), Unlinking(keys)) =>
      if key !in keys then s
      else Go(s, rid, Unlinking(keys - {key})).(disk := if ok then s.disk - {key} else s.disk)
    case (Crash(rid), _) => Go(s, rid, Over)
    case _ => s
  }

  function RunFrom(digest: Digest, s: State, events: seq<Event>): State
    decreases |events|
  {
    if events == [] then s else RunFrom(digest, Step(digest, s, events[0]), events[1..])
  }

  // ---------------------------------------------------------------- invariants

  /** The row's file is on disk, its content is what was hashed, and the row answers for it. */
  ghost predicate RowOk(digest: Digest, s: State, id: nat)
    requires id in s.rows
  {
    var row := s.rows[id];
    && row.key in s.disk && (row.hash.Some? ==> digest(s.disk[row.key]) == row.hash.value)
    && row.key in s.owners && s.owners[row.key] == OfRow(id)
  }

  ghost predicate RowsOk(digest: Digest, s: State) {
    forall id | id in s.rows :: RowOk(digest, s, id)
  }

  ghost predicate PreparedOk(digest: Digest, s: State, rid: nat, p: Prepared) {
    && p.key in s.disk && digest(s.disk[p.key]) == p.hash
    && p.key in s.owners && s.owners[p.key] == OfRequest(rid)
  }

  ghost predicate DistinctKeys(prepared: seq<Prepared>) {
    forall i, j | 0 <= i < j < |prepared| :: prepared[i].key != prepared[j].key
  }

  ghost predicate RequestOk(digest: Digest, s: State, rid: nat, r: Request) {
    match r
    case Saving(_, _, _, prepared) =>
      DistinctKeys(prepared) && forall i | 0 <= i < |prepared| :: PreparedOk(digest, s, rid, prepared[i])
    case Unlinking(keys) => forall key | key in keys :: key in s.owners && s.owners[key] == OfRequest(rid)
    case _ => true
  }

  ghost predicate Inv(digest: Digest, s: State) {
    && RowsOk(digest, s)
    && (forall rid | rid in s.requests :: RequestOk(digest, s, rid, s.requests[rid]))
    && s.disk.Keys <= s.owners.Keys
  }

  /** A store at rest: every row has its own file. */
  ghost predicate AtRest(digest: Digest, s: State) {
    Inv(digest, s) && s.requests == map[]
  }

  /** Files and owners of keys that the step does not touch stay; `rid` is the request that moves. */
  ghost predicate Elsewhere(s: State, t: State, rid: nat) {
    forall key | key in s.owners && s.owners[key] != OfRequest(rid) ::
      && key in t.owners && t.owners[key] == s.owners[key]
      && (key in s.disk ==> key in t.disk && t.disk[key] == s.disk[key])
  }

  lemma OthersKept(digest: Digest, s: State, t: State, rid: nat, p: nat)
    requires Inv(digest, s) && Elsewhere(s, t, rid) && p != rid && p in s.requests
    ensures RequestOk(digest, t, p, s.requests[p])
  {
    assert RequestOk(digest, s, p, s.requests[p]);
  }

  lemma RowsKept(digest: Digest, s: State, t: State, rid: nat)
    requires RowsOk(digest, s) && Elsewhere(s, t, rid) && t.rows == s.rows
    ensures RowsOk(digest, t)
  {
    forall id | id in t.rows ensures RowOk(digest, t, id) {
      assert RowOk(digest, s, id);
    }
  }

  /** A request that moves on without touching the rows keeps the invariant if it keeps its own part. */
  lemma MoveKeeps(digest: Digest, s: State, t: State, rid: nat, r: Request)
    requires Inv(digest, s) && Elsewhere(s, t, rid) && t.rows == s.rows
    requires t.requests == s.requests[rid := r] && RequestOk(digest, t, rid, r) && t.disk.Keys <= t.owners.Keys
    ensures Inv(digest, t)
  {
    RowsKept(digest, s, t, rid);
    forall p | p in t.requests ensures RequestOk(digest, t, p, t.requests[p]) {
      if p != rid { OthersKept(digest, s, t, rid, p); }
    }
  }

  lemma SaveKeeps(digest: Digest, s: State, rid: nat, key: string, result: SaveResult)
    requires Inv(digest, s) && rid in s.requests && s.requests[rid].Saving? && s.requests[rid].todo != []
        && key !in s.owners
    ensures Inv(digest, SaveOn(digest, s, rid, s.requests[rid], key, result))
  {
    var r, t := s.requests[rid], SaveOn(digest, s, rid, s.requests[rid], key, result);
    assert RequestOk(digest, s, rid, r);
    forall i | 0 <= i < |r.prepared| ensures PreparedOk(digest, t, rid, r.prepared[i]) && r.prepared[i].key != key {
      assert PreparedOk(digest, s, rid, r.prepared[i]);
    }
    MoveKeeps(digest, s, t, rid, t.requests[rid]);
  }

  lemma {:induction false} InsertedRows(rows: map<nat, Row>, needId: nat, prepared: seq<Prepared>, ids: seq<nat>)
    requires |ids| == |prepared| && Distinct(ids) && forall i | 0 <= i < |ids| :: ids[i] !in rows
    ensures var all := Inserted(rows, needId, prepared, ids);
      && (forall id | id in rows :: id in all && all[id] == rows[id])
      && (forall i | 0 <= i < |ids| ::
            ids[i] in all && all[ids[i]] == Row(needId, prepared[i].key, Some(prepared[i].hash)))
      && (forall id | id in all :: id in rows || id in ids)
    decreases |ids|
  {
    if ids != [] {
      var n := |ids| - 1;
      InsertedRows(rows, needId, prepared[..n], ids[..n]);
      forall i | 0 <= i < n ensures ids[i] != ids[n] && ids[..n][i] == ids[i] && prepared[..n][i] == prepared[i] {
      }
    }
  }

  lemma {:induction false} HandedOverOwners(owners: map<string, Owner>, prepared: seq<Prepared>, ids: seq<nat>)
    requires |ids| == |prepared| && DistinctKeys(prepared)
    ensures var all := HandedOver(owners, prepared, ids);
      && (forall i | 0 <= i < |ids| :: prepared[i].key in all && all[prepared[i].key] == OfRow(ids[i]))
      && (forall key | key !in KeysOf(prepared) ::
          (key in all <==> key in owners) && (key in owners ==> all[key] == owners[key]))
      && owners.Keys <= all.Keys
    decreases |ids|
  {
    if ids != [] {
      var n := |ids| - 1;
      HandedOverOwners(owners, prepared[..n], ids[..n]);
      forall i | 0 <= i < n ensures prepared[i].key != prepared[n].key && ids[..n][i] == ids[i]
          && prepared[..n][i] == prepared[i] {
      }
      forall key | key !in KeysOf(prepared) ensures key !in KeysOf(prepared[..n]) && key != prepared[n].key {
        assert prepared[n].key in KeysOf(prepared);
      }
    }
  }

  ghost predicate MayCommit(s: State, rid: nat, ids: seq<nat>) {
    && rid in s.requests && s.requests[rid].Saving? && s.requests[rid].todo == []
    && |ids| == |s.requests[rid].prepared| && FreshIds(s, ids) && s.requests[rid].needId !in s.gone
  }

  lemma CommitRows(digest: Digest, s: State, rid: nat, ids: seq<nat>)
    requires RowsOk(digest, s) && MayCommit(s, rid, ids) && RequestOk(digest, s, rid, s.requests[rid])
    ensures RowsOk(digest, CommitOn(s, rid, s.requests[rid].needId, s.requests[rid].prepared, ids))
  {
    var r := s.requests[rid];
    var t := CommitOn(s, rid, r.needId, r.prepared, ids);
    InsertedRows(s.rows, r.needId, r.prepared, ids);
    HandedOverOwners(s.owners, r.prepared, ids);
    hide Inserted, HandedOver;
    forall id | id in t.rows ensures RowOk(digest, t, id) {
      if id in s.rows {
        assert RowOk(digest, s, id);
        assert forall i | 0 <= i < |r.prepared| :: PreparedOk(digest, s, rid, r.prepared[i]);
      } else {
        var i :| 0 <= i < |ids| && ids[i] == id;
        assert PreparedOk(digest, s, rid, r.prepared[i]);
      }
    }
  }

  lemma CommitElsewhere(digest: Digest, s: State, rid: nat, ids: seq<nat>)
    requires MayCommit(s, rid, ids) && RequestOk(digest, s, rid, s.requests[rid])
    ensures var t := CommitOn(s, rid, s.requests[rid].needId, s.requests[rid].prepared, ids);
      Elsewhere(s, t, rid) && s.owners.Keys <= t.owners.Keys
  {
    var r := s.requests[rid];
    HandedOverOwners(s.owners, r.prepared, ids);
    hide Inserted, HandedOver;
    forall key | key in KeysOf(r.prepared) ensures key in s.owners && s.owners[key] == OfRequest(rid) {
      var i :| 0 <= i < |r.prepared| && r.prepared[i].key == key;
      assert PreparedOk(digest, s, rid, r.prepared[i]);
    }
  }

  lemma CommitKeeps(digest: Digest, s: State, rid: nat, ids: seq<nat>)
    requires Inv(digest, s) && MayCommit(s, rid, ids)
    ensures Inv(digest, Step(digest, s, Commit(rid, ids, true)))
  {
    var t := CommitOn(s, rid, s.requests[rid].needId, s.requests[rid].prepared, ids);
    assert t == Step(digest, s, Commit(rid, ids, true));
    assert RequestOk(digest, s, rid, s.requests[rid]);
    CommitRows(digest, s, rid, ids);
    CommitElsewhere(digest, s, rid, ids);
    hide Inserted, HandedOver, RowsOk, Step;
    forall p | p in t.requests ensures RequestOk(digest, t, p, t.requests[p]) {
      if p != rid { OthersKept(digest, s, t, rid, p); }
    }
  }

  lemma RemoveRowKeeps(digest: Digest, s: State, rid: nat, id: nat)
    requires Inv(digest, s) && rid !in s.requests && id in s.rows
    ensures Inv(digest, Step(digest, s, RemoveRow(rid, id, true)))
  {
    var t, key := Step(digest, s, RemoveRow(rid, id, true)), s.rows[id].key;
    assert RowOk(digest, s, id);
    forall k | k in t.rows ensures RowOk(digest, t, k) {
      assert RowOk(digest, s, k);
    }
    forall p | p in t.requests ensures RequestOk(digest, t, p, t.requests[p]) {
      if p != rid { assert RequestOk(digest, s, p, s.requests[p]); OwnedElsewhere(digest, s, t, p, {key}); }
    }
  }

  /** Taking over keys that no request answers for does not touch the requests. */
  lemma OwnedElsewhere(digest: Digest, s: State, t: State, p: nat, keys: set<string>)
    requires p in s.requests && RequestOk(digest, s, p, s.requests[p])
    requires t.disk == s.disk && forall k | k in keys :: k in s.owners && s.owners[k].OfRow?
    requires forall k | k in s.owners && k !in keys :: k in t.owners && t.owners[k] == s.owners[k]
    ensures RequestOk(digest, t, p, s.requests[p])
  {
    var r := s.requests[p];
    if r.Saving? {
      forall i | 0 <= i < |r.prepared| ensures PreparedOk(digest, t, p, r.prepared[i]) {
        assert PreparedOk(digest, s, p, r.prepared[i]);
      }
    }
  }

  lemma RemoveNeedsKeeps(digest: Digest, s: State, rid: nat, needIds: set<nat>)
    requires Inv(digest, s) && rid !in s.requests
    ensures Inv(digest, RemoveNeedsOn(s, rid, needIds))
  {
    var t, keys := RemoveNeedsOn(s, rid, needIds), KeysOfNeeds(s.rows, needIds);
    forall key | key in keys ensures key in s.owners && s.owners[key].OfRow? {
      var id :| id in s.rows && s.rows[id].needId in needIds && s.rows[id].key == key;
      assert RowOk(digest, s, id);
    }
    forall id | id in t.rows ensures RowOk(digest, t, id) {
      assert RowOk(digest, s, id);
      forall k | k in s.rows && s.rows[k].key == s.rows[id].key ensures k == id { assert RowOk(digest, s, k); }
    }
    forall p | p in t.requests ensures RequestOk(digest, t, p, t.requests[p]) {
      if p != rid { assert RequestOk(digest, s, p, s.requests[p]); OwnedElsewhere(digest, s, t, p, keys); }
    }
  }

  lemma ActKeeps(digest: Digest, s: State, e: Event)
    requires Inv(digest, s) && !e.Begin? && !e.RemoveRow? && !e.RemoveNeeds? && e.rid in s.requests
    ensures Inv(digest, Act(digest, s, e, s.requests[e.rid]))
  {
    var rid, r := e.rid, s.requests[e.rid];
    var t := Act(digest, s, e, r);
    assert RequestOk(digest, s, rid, r);
    if e.Save? {
      if r.Saving? && r.todo != [] && e.key !in s.owners { SaveKeeps(digest, s, rid, e.key, e.result); }
    } else if e.Commit? && e.ok && MayCommit(s, rid, e.ids) {
      CommitKeeps(digest, s, rid, e.ids);
    } else if t != s {
      if e.Commit? {
        assert forall key | key in KeysOf(r.prepared) :: key in s.owners && s.owners[key] == OfRequest(rid);
      }
      MoveKeeps(digest, s, t, rid, t.requests[rid]);
    }
  }

  lemma StepKeeps(digest: Digest, s: State, e: Event)
    requires Inv(digest, s)
    ensures Inv(digest, Step(digest, s, e))
  {
    if e.Begin? {
      if e.rid !in s.requests {
        var t := Step(digest, s, e);
        MoveKeeps(digest, s, t, e.rid, t.requests[e.rid]);
      }
    } else if e.RemoveRow? {
      if e.rid !in s.requests {
        if e.id in s.rows && e.editable {
          RemoveRowKeeps(digest, s, e.rid, e.id);
        } else {
          MoveKeeps(digest, s, Go(s, e.rid, Over), e.rid, Over);
        }
      }
    } else if e.RemoveNeeds? {
      if e.rid !in s.requests {
        if e.deletable {
          RemoveNeedsKeeps(digest, s, e.rid, e.needIds);
        } else {
          MoveKeeps(digest, s, Go(s, e.rid, Over), e.rid, Over);
        }
      }
    } else if e.rid in s.requests {
      ActKeeps(digest, s, e);
    }
  }

  lemma {:induction false} RunKeeps(digest: Digest, s: State, events: seq<Event>)
    requires Inv(digest, s)
    ensures Inv(digest, RunFrom(digest, s, events))
    decreases |events|
  {
    if events != [] {
      StepKeeps(digest, s, events[0]);
      RunKeeps(digest, Step(digest, s, events[0]), events[1..]);
    }
  }

  /** At every point of every run, whatever failed or crashed, every row's file is on disk with the content
      that was hashed, and no two rows share a file. */
  lemma EvidenceOnDisk(digest: Digest, s: State, events: seq<Event>, id: nat, other: nat)
    requires AtRest(digest, s)
    requires id in RunFrom(digest, s, events).rows && other in RunFrom(digest, s, events).rows
    ensures var t := RunFrom(digest, s, events);
      && t.rows[id].key in t.disk
      && (t.rows[id].hash.Some? ==> digest(t.disk[t.rows[id].key]) == t.rows[id].hash.value)
      && (id != other ==> t.rows[id].key != t.rows[other].key)
  {
    var t := RunFrom(digest, s, events);
    RunKeeps(digest, s, events);
    assert RowOk(digest, t, id) && RowOk(digest, t, other);
  }

  /** How requests start: an upload is admitted exactly if the Need exists, its evidence may be changed, and its own
      rows and the new files are ten at most; a removal takes its row away exactly if that may be changed. */
  lemma StartsExactly(digest: Digest, s: State, rid: nat, needId: nat, files: seq<string>, id: nat, editable: bool)
    requires rid !in s.requests
    ensures var own := |set k | k in s.rows && s.rows[k].needId == needId|;
      Step(digest, s, Begin(rid, needId, files, editable)) == s.(requests := s.requests[rid :=
        if editable && needId !in s.gone && own + |files| <= 10 then Counted(needId, files) else Over])
    ensures var t := Step(digest, s, RemoveRow(rid, id, editable));
      && t.disk == s.disk
      && (if id in s.rows && editable then
            t.rows == s.rows - {id} && t.requests == s.requests[rid := Unlinking({s.rows[id].key})]
          else t == s.(requests := s.requests[rid := Over]))
  {
    assert RowsOf(s.rows, needId) == set k | k in s.rows && s.rows[k].needId == needId;
  }

  // ---------------------------------------------------------------- duplicates

  /** The hash is stored already or belongs to one of the first `n` files. */
  ghost predicate Known(digest: Digest, stored: set<string>, files: seq<string>, n: nat, hash: string)
    requires n <= |files|
  {
    hash in stored || exists j | 0 <= j < n :: digest(files[j]) == hash
  }

  lemma KnownNext(digest: Digest, stored: set<string>, files: seq<string>, n: nat, hash: string)
    requires n < |files|
    ensures Known(digest, stored, files, n + 1, hash)
      <==> Known(digest, stored, files, n, hash) || hash == digest(files[n])
  {
    if hash == digest(files[n]) {
      assert 0 <= n < n + 1 && digest(files[n]) == hash;
    } else if Known(digest, stored, files, n + 1, hash) && hash !in stored {
      var j :| 0 <= j < n + 1 && digest(files[j]) == hash;
      assert j < n;
    }
  }

  /** The request works through the files, and its flags are exact: a file is a duplicate if and only if its hash is
      one of `stored` or belongs to an earlier file of the batch. */
  ghost predicate Tracks(digest: Digest, r: Request, needId: nat, files: seq<string>, stored: set<string>) {
    match r
    case Counted(_, _) => false
    case Saving(need, todo, seen, prepared) =>
      && need == needId && |prepared| <= |files| && todo == files[|prepared|..]
      && (forall h :: h in seen <==> Known(digest, stored, files, |prepared|, h))
      && (forall i | 0 <= i < |prepared| ::
            && prepared[i].hash == digest(files[i])
            && (prepared[i].duplicate <==> Known(digest, stored, files, i, digest(files[i]))))
    case _ => true
  }

  lemma SaveTracks(digest: Digest, s: State, rid: nat, key: string, needId: nat, files: seq<string>,
                   stored: set<string>)
    requires rid in s.requests && Tracks(digest, s.requests[rid], needId, files, stored)
    requires s.requests[rid].Saving? && s.requests[rid].todo != []
    ensures Tracks(digest, SaveOn(digest, s, rid, s.requests[rid], key, Saved).requests[rid], needId, files, stored)
  {
    var r, q := s.requests[rid], SaveOn(digest, s, rid, s.requests[rid], key, Saved).requests[rid];
    var n := |r.prepared|;
    assert r.todo[0] == files[n] && q.todo == files[n + 1..];
    forall h ensures h in q.seen <==> Known(digest, stored, files, n + 1, h) {
      KnownNext(digest, stored, files, n, h);
    }
  }

  lemma StepTracks(digest: Digest, s: State, e: Event, rid: nat, needId: nat, files: seq<string>, stored: set<string>)
    requires rid in s.requests && Tracks(digest, s.requests[rid], needId, files, stored)
    ensures var t := Step(digest, s, e); rid in t.requests && Tracks(digest, t.requests[rid], needId, files, stored)
  {
    if e.Save? && e.rid == rid && e.result.Saved? && s.requests[rid].Saving? && s.requests[rid].todo != [] {
      SaveTracks(digest, s, rid, e.key, needId, files, stored);
    }
  }

  lemma {:induction false} RunTracks(digest: Digest, s: State, events: seq<Event>, rid: nat, needId: nat,
                                     files: seq<string>,
                                     stored: set<string>)
    requires rid in s.requests && Tracks(digest, s.requests[rid], needId, files, stored)
    ensures var t := RunFrom(digest, s, events);
      rid in t.requests && Tracks(digest, t.requests[rid], needId, files, stored)
    decreases |events|
  {
    if events != [] {
      hide Step, Tracks;
      StepTracks(digest, s, events[0], rid, needId, files, stored);
      RunTracks(digest, Step(digest, s, events[0]), events[1..], rid, needId, files, stored);
    }
  }

  /** Whatever other requests do meanwhile, an upload flags a file exactly when its hash was stored for the Need
      at the moment the upload read the hashes, or occurs earlier in the batch. */
  lemma FlagsExact(digest: Digest, s: State, rid: nat, more: seq<Event>)
    requires rid in s.requests && s.requests[rid].Counted?
    ensures var r := s.requests[rid];
      var t := RunFrom(digest, Step(digest, s, ReadHashes(rid)), more);
      rid in t.requests && Tracks(digest, t.requests[rid], r.needId, r.files, HashesOf(s.rows, r.needId))
  {
    var r := s.requests[rid];
    var t := Step(digest, s, ReadHashes(rid));
    RunTracks(digest, t, more, rid, r.needId, r.files, HashesOf(s.rows, r.needId));
  }

  /** A row of the Need has the hash. */
  ghost predicate StoredFor(rows: map<nat, Row>, needId: nat, hash: string) {
    exists id :: id in rows && rows[id].needId == needId && rows[id].hash == Some(hash)
  }

  /** The file at `i` is a duplicate: a row of the Need itself has its hash, or an earlier file of the batch does. */
  ghost predicate IsDuplicate(digest: Digest, rows: map<nat, Row>, needId: nat, files: seq<string>, i: nat)
    requires i < |files|
  {
    StoredFor(rows, needId, digest(files[i])) || exists j | 0 <= j < i :: digest(files[j]) == digest(files[i])
  }

  lemma DuplicateKnown(digest: Digest, rows: map<nat, Row>, needId: nat, files: seq<string>, i: nat)
    requires i < |files|
    ensures Known(digest, HashesOf(rows, needId), files, i, digest(files[i]))
       <==> IsDuplicate(digest, rows, needId, files, i)
  {
    var hash := digest(files[i]);
    assert hash in HashesOf(rows, needId) <==> StoredFor(rows, needId, hash);
  }

  /** So its flags say exactly which files the Need had when the hashes were read, or the batch has twice; files of
      other Needs do not matter. */
  lemma FlagsMean(digest: Digest, s: State, rid: nat, more: seq<Event>)
    requires rid in s.requests && s.requests[rid].Counted?
    ensures var r := s.requests[rid];
      var t := RunFrom(digest, Step(digest, s, ReadHashes(rid)), more);
      && rid in t.requests
      && (t.requests[rid].Saving? ==>
            var prepared := t.requests[rid].prepared;
            && |prepared| <= |r.files|
            && forall i | 0 <= i < |prepared| ::
                 && prepared[i].hash == digest(r.files[i])
                 && (prepared[i].duplicate <==> IsDuplicate(digest, s.rows, r.needId, r.files, i)))
  {
    var r := s.requests[rid];
    var t := RunFrom(digest, Step(digest, s, ReadHashes(rid)), more);
    FlagsExact(digest, s, rid, more);
    hide RunFrom, Step, Known, IsDuplicate;
    if t.requests[rid].Saving? {
      forall i | 0 <= i < |t.requests[rid].prepared|
        ensures Known(digest, HashesOf(s.rows, r.needId), r.files, i, digest(r.files[i]))
           <==> IsDuplicate(digest, s.rows, r.needId, r.files, i)
      {
        DuplicateKnown(digest, s.rows, r.needId, r.files, i);
      }
    }
  }

  /** Two tables have the same rows of the Need. */
  ghost predicate SameOfNeed(a: map<nat, Row>, b: map<nat, Row>, needId: nat) {
    forall id :: (id in a && a[id].needId == needId) || (id in b && b[id].needId == needId)
      ==> id in a && id in b && a[id] == b[id]
  }

  /** Only the Need's own rows decide a flag. */
  lemma OwnRowsDecide(digest: Digest, a: map<nat, Row>, b: map<nat, Row>, needId: nat, files: seq<string>, i: nat)
    requires i < |files| && SameOfNeed(a, b, needId)
    ensures Known(digest, HashesOf(a, needId), files, i, digest(files[i]))
       <==> Known(digest, HashesOf(b, needId), files, i, digest(files[i]))
    ensures |RowsOf(a, needId)| == |RowsOf(b, needId)|
  {
    DuplicateKnown(digest, a, needId, files, i);
    DuplicateKnown(digest, b, needId, files, i);
    assert RowsOf(a, needId) == RowsOf(b, needId);
    hide Known;
    assert StoredFor(a, needId, digest(files[i])) <==> StoredFor(b, needId, digest(files[i]));
  }

  // ---------------------------------------------------------------- which files are left over, exactly

  /** Somebody answers for the file: its row, or a request that still has to. */
  ghost predicate AccountedBy(s: State, key: string, owner: Owner) {
    match owner
    case OfRow(id) => id in s.rows && s.rows[id].key == key
    case OfRequest(rid) => rid in s.requests && s.requests[rid].Holds(key)
    case Nobody => false
  }

  /** A file on disk that nobody answers for. */
  ghost predicate Stray(s: State, key: string) {
    key in s.disk && (key in s.owners ==> !AccountedBy(s, key, s.owners[key]))
  }

  /** The step leaves the file to nobody: a save writes it in part, its removal fails, its request crashes, or its Need
      is deleted. */
  ghost predicate Leaves(s: State, e: Event, key: string) {
    match e
    case Save(rid, k, result) =>
      && k == key && key !in s.owners && rid in s.requests && s.requests[rid].Saving? && s.requests[rid].todo != []
      && result.NotSaved? && result.partial.Some?
    case Unlink(rid, k, ok) =>
      k == key && !ok && key in s.disk && rid in s.requests && s.requests[rid].Unlinking? && key in s.requests[rid].keys
    case Crash(rid) => rid in s.requests && s.requests[rid].Holds(key) && key in s.disk
    case RemoveNeeds(rid, needIds, deletable) =>
      rid !in s.requests && deletable && key in KeysOfNeeds(s.rows, needIds)
    case _ => false
  }

  /** Some step of the run leaves the file to nobody. */
  ghost predicate Left(digest: Digest, s: State, events: seq<Event>, key: string)
    decreases |events|
  {
    events != [] && (Leaves(s, events[0], key) || Left(digest, Step(digest, s, events[0]), events[1..], key))
  }

  /** Whoever holds a file owns it. */
  lemma HolderOwns(digest: Digest, s: State, rid: nat, key: string)
    requires Inv(digest, s) && rid in s.requests && s.requests[rid].Holds(key)
    ensures key in s.owners && s.owners[key] == OfRequest(rid)
  {
    var r := s.requests[rid];
    assert RequestOk(digest, s, rid, r);
    if r.Saving? {
      var i :| 0 <= i < |r.prepared| && r.prepared[i].key == key;
      assert PreparedOk(digest, s, rid, r.prepared[i]);
    }
  }

  lemma KeysHeld(r: Request, key: string)
    requires r.Saving?
    ensures r.Holds(key) <==> key in KeysOf(r.prepared)
  {
  }

  /** For a file that is not of the batch a commit changes neither its owner nor its row. */
  lemma CommittedElsewhere(s: State, rid: nat, ids: seq<nat>, key: string, id: nat)
    requires MayCommit(s, rid, ids) && DistinctKeys(s.requests[rid].prepared)
        && key !in KeysOf(s.requests[rid].prepared)
    ensures var r := s.requests[rid]; var t := CommitOn(s, rid, r.needId, r.prepared, ids);
      && (key in t.owners <==> key in s.owners) && (key in s.owners ==> t.owners[key] == s.owners[key])
      && (id in t.rows && t.rows[id].key == key <==> id in s.rows && s.rows[id].key == key)
  {
    var r := s.requests[rid];
    InsertedRows(s.rows, r.needId, r.prepared, ids);
    HandedOverOwners(s.owners, r.prepared, ids);
    hide Inserted, HandedOver;
    if id in ids {
      var i :| 0 <= i < |ids| && ids[i] == id;
      assert r.prepared[i].key in KeysOf(r.prepared);
    }
  }

  /** A committed file belongs to its row now, as it belonged to the request before. */
  lemma CommittedHere(digest: Digest, s: State, rid: nat, ids: seq<nat>, i: nat)
    requires Inv(digest, s) && MayCommit(s, rid, ids) && i < |ids|
    ensures var r := s.requests[rid]; var key := r.prepared[i].key;
      !Stray(s, key) && !Stray(CommitOn(s, rid, r.needId, r.prepared, ids), key)
  {
    var r := s.requests[rid];
    assert RequestOk(digest, s, rid, r) && r.Holds(r.prepared[i].key);
    HolderOwns(digest, s, rid, r.prepared[i].key);
    InsertedRows(s.rows, r.needId, r.prepared, ids);
    HandedOverOwners(s.owners, r.prepared, ids);
    hide Inserted, HandedOver, Inv;
    assert ids[i] in Inserted(s.rows, r.needId, r.prepared, ids);
  }

  lemma CommitStrays(digest: Digest, s: State, rid: nat, ids: seq<nat>, key: string)
    requires Inv(digest, s) && MayCommit(s, rid, ids)
    ensures var r := s.requests[rid];
      Stray(CommitOn(s, rid, r.needId, r.prepared, ids), key) <==> Stray(s, key)
  {
    var r := s.requests[rid];
    if key in KeysOf(r.prepared) {
      var i :| 0 <= i < |r.prepared| && r.prepared[i].key == key;
      CommittedHere(digest, s, rid, ids, i);
    } else {
      assert RequestOk(digest, s, rid, r);
      KeysHeld(r, key);
      hide Inserted, HandedOver, Inv, RequestOk;
      var id := if key in s.owners && s.owners[key].OfRow? then s.owners[key].id else 0;
      CommittedElsewhere(s, rid, ids, key, id);
    }
  }

  lemma SaveStrays(digest: Digest, s: State, rid: nat, k: string, result: SaveResult, key: string)
    requires Inv(digest, s) && rid in s.requests && s.requests[rid].Saving? && s.requests[rid].todo != []
        && k !in s.owners
    ensures Stray(SaveOn(digest, s, rid, s.requests[rid], k, result), key)
       <==> Stray(s, key) || Leaves(s, Save(rid, k, result), key)
  {
    var r, t := s.requests[rid], SaveOn(digest, s, rid, s.requests[rid], k, result);
    var q := t.requests[rid];
    KeysHeld(r, key);
    if result.Saved? {
      assert q.prepared[|r.prepared|].key == k;
      if key != k {
        assert forall i | 0 <= i < |r.prepared| :: q.prepared[i] == r.prepared[i];
        assert q.Holds(key) <==> r.Holds(key);
      }
    }
  }

  lemma ActStrays(digest: Digest, s: State, e: Event, key: string)
    requires Inv(digest, s) && !e.Begin? && !e.RemoveRow? && !e.RemoveNeeds? && e.rid in s.requests
    ensures Stray(Act(digest, s, e, s.requests[e.rid]), key) <==> Stray(s, key) || Leaves(s, e, key)
  {
    var rid, r := e.rid, s.requests[e.rid];
    if r.Holds(key) { HolderOwns(digest, s, rid, key); }
    if e.Save? {
      if r.Saving? && r.todo != [] && e.key !in s.owners { SaveStrays(digest, s, rid, e.key, e.result, key); }
    } else if e.Commit? {
      if e.ok && MayCommit(s, rid, e.ids) { CommitStrays(digest, s, rid, e.ids, key); }
      if r.Saving? { KeysHeld(r, key); }
    } else if e.Unlink? && r.Unlinking? && e.key in r.keys {
      assert r.Holds(e.key);
      HolderOwns(digest, s, rid, e.key);
    }
  }

  /** Deleting Needs leaves exactly the files of their rows. */
  lemma RemoveNeedsStrays(digest: Digest, s: State, rid: nat, needIds: set<nat>, key: string)
    requires Inv(digest, s) && rid !in s.requests
    ensures Stray(RemoveNeedsOn(s, rid, needIds), key) <==> Stray(s, key) || key in KeysOfNeeds(s.rows, needIds)
  {
    if key in KeysOfNeeds(s.rows, needIds) {
      var id :| id in s.rows && s.rows[id].needId in needIds && s.rows[id].key == key;
      assert RowOk(digest, s, id);
    }
  }

  lemma StepStrays(digest: Digest, s: State, e: Event, key: string)
    requires Inv(digest, s)
    ensures Stray(Step(digest, s, e), key) <==> Stray(s, key) || Leaves(s, e, key)
  {
    if e.RemoveRow? {
      if e.id in s.rows { assert RowOk(digest, s, e.id); }
    } else if e.RemoveNeeds? {
      if e.rid !in s.requests && e.deletable { RemoveNeedsStrays(digest, s, e.rid, e.needIds, key); }
    } else if !e.Begin? && e.rid in s.requests {
      ActStrays(digest, s, e, key);
    }
  }

  /** The files left over by a run are exactly those that were left before and those that one of its steps leaves:
      what is left over once is never removed. */
  lemma {:induction false} StrayExactly(digest: Digest, s: State, events: seq<Event>, key: string)
    requires Inv(digest, s)
    ensures Stray(RunFrom(digest, s, events), key) <==> Stray(s, key) || Left(digest, s, events, key)
    decreases |events|
  {
    if events != [] {
      hide Stray, Leaves, Step, Inv;
      StepKeeps(digest, s, events[0]);
      StepStrays(digest, s, events[0], key);
      StrayExactly(digest, Step(digest, s, events[0]), events[1..], key);
    }
  }

  /** Every request has answered, and has nothing left to remove. */
  ghost predicate Quiet(s: State) {
    forall rid | rid in s.requests :: s.requests[rid] in {Over, Unlinking({})}
  }

  function RowKeys(s: State): set<string> {
    set id | id in s.rows :: s.rows[id].key
  }

  lemma QuietDisk(digest: Digest, s: State, key: string)
    requires Inv(digest, s) && Quiet(s)
    ensures key in s.disk <==> key in RowKeys(s) || Stray(s, key)
    ensures !(key in RowKeys(s) && Stray(s, key))
  {
    if key in RowKeys(s) {
      var id :| id in s.rows && s.rows[id].key == key;
      assert RowOk(digest, s, id);
    }
  }

  /** Once all requests are over, after any interleaving of uploads that succeed or fail, of removals and of deleted
      Needs, the disk holds the files of the rows and, beside them, exactly those that a partial save, a failed
      removal, a crash or the deletion of a Need has left; so it holds the files of the rows alone if and only if
      there were none of these. */
  lemma StoresAgree(digest: Digest, s: State, events: seq<Event>)
    requires Inv(digest, s) && Quiet(RunFrom(digest, s, events))
    ensures var t := RunFrom(digest, s, events);
      && (forall key :: key in t.disk <==> key in RowKeys(t) || Stray(s, key) || Left(digest, s, events, key))
      && (t.disk.Keys == RowKeys(t) <==> forall key :: !Stray(s, key) && !Left(digest, s, events, key))
  {
    var t := RunFrom(digest, s, events);
    RunKeeps(digest, s, events);
    hide RunFrom, Inv, Stray, Left, RowKeys;
    forall key
      ensures key in t.disk <==> key in RowKeys(t) || Stray(s, key) || Left(digest, s, events, key)
      ensures !(key in RowKeys(t) && (Stray(s, key) || Left(digest, s, events, key)))
    {
      StrayExactly(digest, s, events, key);
      QuietDisk(digest, t, key);
    }
  }

  /** No crash, no half-written file, no deleted Need, and removals succeed; saves and commits may fail. */
  predicate Clean(e: Event) {
    match e
    case Save(_, _, NotSaved(partial)) => partial == None
    case Unlink(_, _, ok) => ok
    case Crash(_) => false
    case RemoveNeeds(_, needIds, deletable) => needIds == {} || !deletable
    case _ => true
  }

  lemma {:induction false} CleanLeavesNothing(digest: Digest, s: State, events: seq<Event>, key: string)
    requires forall e | e in events :: Clean(e)
    ensures !Left(digest, s, events, key)
    decreases |events|
  {
    if events != [] {
      assert Clean(events[0]);
      CleanLeavesNothing(digest, Step(digest, s, events[0]), events[1..], key);
    }
  }

  /** Without crashes, partial saves, failed removals and deleted Needs the two stores agree again once all requests
      are over. */
  lemma CleanRunsAgree(digest: Digest, s: State, events: seq<Event>)
    requires AtRest(digest, s) && (forall key :: !Stray(s, key)) && forall e | e in events :: Clean(e)
    requires Quiet(RunFrom(digest, s, events))
    ensures var t := RunFrom(digest, s, events); t.disk.Keys == RowKeys(t)
  {
    StoresAgree(digest, s, events);
    forall key ensures !Left(digest, s, events, key) {
      CleanLeavesNothing(digest, s, events, key);
    }
  }

  /** What is left over stays on disk in every continuation, and never belongs to a row. */
  lemma OrphanForever(digest: Digest, s: State, events: seq<Event>, key: string, id: nat)
    requires Inv(digest, s) && Stray(s, key)
    ensures Stray(RunFrom(digest, s, events), key)
    ensures id in RunFrom(digest, s, events).rows ==> RunFrom(digest, s, events).rows[id].key != key
  {
    StrayExactly(digest, s, events, key);
    RunKeeps(digest, s, events);
    if id in RunFrom(digest, s, events).rows { assert RowOk(digest, RunFrom(digest, s, events), id); }
  }

  /** Deleting Needs leaves every file of their evidence on disk, in every continuation, and no row has it: nothing has
      to fail for that. */
  lemma DeletedNeedsLeave(digest: Digest, s: State, rid: nat, needIds: set<nat>, more: seq<Event>, id: nat)
    requires Inv(digest, s) && rid !in s.requests && id in s.rows && s.rows[id].needId in needIds
    ensures var t := RunFrom(digest, s, [RemoveNeeds(rid, needIds, true)] + more); var key := s.rows[id].key;
      Stray(t, key) && forall other | other in t.rows :: t.rows[other].key != key
  {
    var e, key := RemoveNeeds(rid, needIds, true), s.rows[id].key;
    var t := RunFrom(digest, s, [e] + more);
    RunFirst(digest, s, e, more);
    StepKeeps(digest, s, e);
    RemoveNeedsStrays(digest, s, rid, needIds, key);
    hide RunFrom, Inv, Stray;
    forall other ensures Stray(t, key) && (other in t.rows ==> t.rows[other].key != key) {
      OrphanForever(digest, Step(digest, s, e), more, key, other);
    }
  }

  lemma RunFirst(digest: Digest, s: State, e: Event, more: seq<Event>)
    ensures RunFrom(digest, s, [e] + more) == RunFrom(digest, Step(digest, s, e), more)
  {
    hide Step;
    assert ([e] + more)[1..] == more;
  }

  /** No row belongs to a deleted Need. */
  ghost predicate GoneEmpty(s: State) {
    forall id | id in s.rows :: s.rows[id].needId !in s.gone
  }

  lemma StepGone(digest: Digest, s: State, e: Event)
    requires GoneEmpty(s)
    ensures GoneEmpty(Step(digest, s, e)) && s.gone <= Step(digest, s, e).gone
  {
    if e.Commit? && MayCommit(s, e.rid, e.ids) {
      var r := s.requests[e.rid];
      InsertedRows(s.rows, r.needId, r.prepared, e.ids);
      hide Inserted, HandedOver;
      forall id | id in e.ids ensures Inserted(s.rows, r.needId, r.prepared, e.ids)[id].needId == r.needId {
        var i :| 0 <= i < |e.ids| && e.ids[i] == id;
      }
    }
  }

  /** A deleted Need never has evidence again, even if an upload to it was under way. */
  lemma {:induction false} DeletedStayEmpty(digest: Digest, s: State, events: seq<Event>)
    requires GoneEmpty(s)
    ensures GoneEmpty(RunFrom(digest, s, events)) && s.gone <= RunFrom(digest, s, events).gone
    decreases |events|
  {
    if events != [] {
      hide Step, GoneEmpty;
      StepGone(digest, s, events[0]);
      DeletedStayEmpty(digest, Step(digest, s, events[0]), events[1..]);
    }
  }

  /** The run of an upload whose first save fails after it has written `partial`. */
  function HalfSave(rid: nat, needId: nat, files: seq<string>, key: string, partial: string): seq<Event> {
    [Begin(rid, needId, files, true), ReadHashes(rid), Save(rid, key, NotSaved(Some(partial)))]
  }

  lemma RunThree(digest: Digest, s: State, a: Event, b: Event, c: Event)
    ensures RunFrom(digest, s, [a, b, c]) == Step(digest, Step(digest, Step(digest, s, a), b), c)
  {
    assert [a, b, c][1..] == [b, c] && [b, c][1..] == [c] && [c][1..] == [];
    hide Step;
    var t := Step(digest, s, a);
    assert RunFrom(digest, t, [b, c]) == RunFrom(digest, Step(digest, t, b), [c]);
    assert RunFrom(digest, Step(digest, t, b), [c]) == RunFrom(digest, Step(digest, Step(digest, t, b), c), []);
  }

  /** An upload that fails before its commit does not always leave the stores as they were: from any state at rest,
      whatever is uploaded, a half-failed save leaves its file, no row has it, and no continuation removes it. */
  lemma HalfSaveStays(digest: Digest, s: State, rid: nat, needId: nat, files: seq<string>, key: string, partial: string,
                      more: seq<Event>)
    requires AtRest(digest, s) && key !in s.owners
    requires files != [] && needId !in s.gone && |RowsOf(s.rows, needId)| + |files| <= MAX_FILES
    ensures var t := RunFrom(digest, s, HalfSave(rid, needId, files, key, partial));
      && t.rows == s.rows && t.disk == s.disk[key := partial] && key !in s.disk && rid in t.requests
          && t.requests[rid] == Unlinking({})
      && Stray(t, key) && Stray(RunFrom(digest, t, more), key)
  {
    var events := HalfSave(rid, needId, files, key, partial);
    RunThree(digest, s, events[0], events[1], events[2]);
    var t := RunFrom(digest, s, events);
    assert KeysOf([]) == {};
    RunKeeps(digest, s, events);
    OrphanForever(digest, t, more, key, 0);
  }

  const EMPTY := State(map[], map[], map[], map[], {})

  /** One such run, from the empty stores. */
  lemma HalfSaveExample(digest: Digest, more: seq<Event>)
    ensures var t := RunFrom(digest, EMPTY, HalfSave(0, 0, ["pdf"], "k.pdf", "p"));
      t.rows == map[] && t.disk == map["k.pdf" := "p"] && Stray(RunFrom(digest, t, more), "k.pdf")
  {
    assert RowsOf(EMPTY.rows, 0) == {};
    HalfSaveStays(digest, EMPTY, 0, 0, ["pdf"], "k.pdf", "p", more);
  }
}
