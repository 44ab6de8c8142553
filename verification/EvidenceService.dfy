/** Evidence uploads and removals as one request performs them when no other request interferes. */
module EvidenceServices {
  import opened Wrappers
  import opened Evidence

  datatype Error =
    | InvalidFile | NeedNotFound | NotEditable | LimitReached | SaveFailed | CommitFailed | AuditFailed
    | EvidenceNotFound | NotDeletable

  /** What the outside world will do during one upload: the keys and ids it draws, and what fails. */
  datatype World = World(keys: seq<string>, ids: seq<nat>, saves: seq<SaveResult>, commitOk: bool, auditOk: bool,
                         stuck: set<string>)
  {
    /** Drawn keys and ids are new, one for each file. */
    ghost predicate Fresh(n: nat, disk: map<string, string>, rows: map<nat, Row>) {
      && |keys| == |ids| == |saves| == n
      && Distinct(keys) && (forall i | 0 <= i < n :: keys[i] !in disk)
      && Distinct(ids) && (forall i | 0 <= i < n :: ids[i] !in rows)
    }
  }

  /** What an upload makes of its files: a file is a duplicate when its hash is stored already or occurs earlier. */
  ghost function Expected(digest: Digest, known: set<string>, files: seq<string>, keys: seq<string>): seq<Prepared>
    requires |keys| == |files|
  {
    seq(|files|, i requires 0 <= i < |files| =>
      Prepared(keys[i], digest(files[i]), Known(digest, known, files, i, digest(files[i]))))
  }

  lemma ExpectedNone(digest: Digest, stored: set<string>, files: seq<string>, keys: seq<string>)
    requires |keys| == |files|
    ensures |Expected(digest, stored, files, keys)| == |files| && Expected(digest, stored, files, keys)[..0] == []
  {
  }

  lemma ExpectedNext(digest: Digest, stored: set<string>, files: seq<string>, keys: seq<string>, i: nat)
    requires |keys| == |files| && i < |files|
    ensures var all := Expected(digest, stored, files, keys);
      && |all| == |files|
      && all[..i + 1] == all[..i] + [Prepared(keys[i], digest(files[i]),
          Known(digest, stored, files, i, digest(files[i])))]
  {
  }

  ghost function WhyStoreFails(w: World): Option<Error> {
    if exists i | 0 <= i < |w.saves| :: w.saves[i].NotSaved? then Some(SaveFailed)
    else if !w.commitOk then Some(CommitFailed)
    else if !w.auditOk then Some(AuditFailed)
    else None
  }

  /** Why an upload fails, if it does: the first of the checks and steps that goes wrong. */
  ghost function WhyFails(valid: string -> bool, needs: map<nat, bool>, rows: map<nat, Row>, needId: nat,
                          files: seq<string>,
                          w: World): Option<Error>
  {
    if exists i | 0 <= i < |files| :: !valid(files[i]) then Some(InvalidFile)
    else if needId !in needs then Some(NeedNotFound)
    else if !needs[needId] then Some(NotEditable)
    else if |RowsOf(rows, needId)| + |files| > MAX_FILES then Some(LimitReached)
    else WhyStoreFails(w)
  }

  /** When an upload fails, and for what: the first check that does not hold, or else the first step that fails. Only
      the rows of the Need itself count towards the limit of ten. */
  lemma FailsExactly(valid: string -> bool, needs: map<nat, bool>, rows: map<nat, Row>, needId: nat,
                     files: seq<string>, w: World)
    ensures var own := |set id | id in rows && rows[id].needId == needId|;
      WhyFails(valid, needs, rows, needId, files, w)
      == if exists i | 0 <= i < |files| :: !valid(files[i]) then Some(InvalidFile)
         else if needId !in needs then Some(NeedNotFound)
         else if needs[needId] == false then Some(NotEditable)
         else if own + |files| > 10 then Some(LimitReached)
         else if exists i | 0 <= i < |w.saves| :: w.saves[i].NotSaved? then Some(SaveFailed)
         else if !w.commitOk then Some(CommitFailed)
         else if !w.auditOk then Some(AuditFailed)
         else None
  {
    assert RowsOf(rows, needId) == set id | id in rows && rows[id].needId == needId;
  }

  /** The rows of a stored batch: those from before, and a new row of the Need for each file, with its key and hash. */
  lemma StoredRows(digest: Digest, known: set<string>, rows: map<nat, Row>, needId: nat, files: seq<string>,
                   keys: seq<string>, ids: seq<nat>)
    requires |keys| == |ids| == |files| && Distinct(ids) && forall i | 0 <= i < |ids| :: ids[i] !in rows
    ensures var all := Inserted(rows, needId, Expected(digest, known, files, keys), ids);
      && (forall id | id in rows :: id in all && all[id] == rows[id])
      && (forall i | 0 <= i < |ids| :: ids[i] in all && all[ids[i]] == Row(needId, keys[i], Some(digest(files[i]))))
      && (forall id | id in all :: id in rows || id in ids)
  {
    InsertedRows(rows, needId, Expected(digest, known, files, keys), ids);
  }

  /** The keys hold the files, and every other key holds what it held. */
  ghost predicate Wrote(before: map<string, string>, after: map<string, string>, keys: seq<string>, files: seq<string>)
    requires |keys| == |files|
  {
    && (forall i | 0 <= i < |keys| :: keys[i] in after && after[keys[i]] == files[i])
    && (forall k | k !in keys :: (k in after <==> k in before) && (k in before ==> after[k] == before[k]))
  }

  /** The save that fails first, or the number of saves if none does. */
  function FirstFailure(saves: seq<SaveResult>): (n: nat)
    ensures n <= |saves| && (n < |saves| ==> saves[n].NotSaved?)
    ensures forall i | 0 <= i < n :: saves[i].Saved?
  {
    if saves == [] || saves[0].NotSaved? then 0 else 1 + FirstFailure(saves[1..])
  }

  /** What an upload that fails before its commit leaves on disk: the saved files that could not be removed,
      and what the failing save has written. */
  ghost function Remains(files: seq<string>, w: World): map<string, string>
    requires |w.keys| == |w.saves| == |files| && Distinct(w.keys)
  {
    var n := FirstFailure(w.saves);
    var stuck := map i | 0 <= i < n && w.keys[i] in w.stuck :: w.keys[i] := files[i];
    if n < |w.saves| && w.saves[n].partial.Some? then stuck[w.keys[n] := w.saves[n].partial.value] else stuck
  }

  lemma RemainsAt(files: seq<string>, w: World, i: nat)
    requires |w.keys| == |w.saves| == |files| && Distinct(w.keys) && i < |files|
    ensures var n := FirstFailure(w.saves); var key := w.keys[i];
      && (key in Remains(files, w) <==> (i < n && key in w.stuck) || (i == n && w.saves[n].partial.Some?))
      && (key in Remains(files, w) ==> Remains(files, w)[key] == if i == n then w.saves[n].partial.value else files[i])
  {
  }

  lemma RemainsOnly(files: seq<string>, w: World, key: string)
    requires |w.keys| == |w.saves| == |files| && Distinct(w.keys) && key !in w.keys
    ensures key !in Remains(files, w)
  {
  }

  /** The disk when the first `n` files are saved and the next save, if there is one, has failed. */
  ghost predicate SavedUpTo(before: map<string, string>, mid: map<string, string>, files: seq<string>, w: World, n: nat)
    requires |w.keys| == |w.saves| == |files| && n <= |files| && (n < |files| ==> w.saves[n].NotSaved?)
  {
    && (forall i | 0 <= i < n :: w.keys[i] in mid && mid[w.keys[i]] == files[i])
    && (n < |files| ==> (w.keys[n] in mid <==> w.saves[n].partial.Some?))
    && (n < |files| && w.keys[n] in mid ==> w.saves[n].partial == Some(mid[w.keys[n]]))
    && (forall k | k !in w.keys[..n] && (n < |files| ==> k != w.keys[n]) ::
          (k in mid <==> k in before) && (k in before ==> mid[k] == before[k]))
  }

  lemma WroteNone(before: map<string, string>)
    ensures forall keys: seq<string>, files: seq<string> :: Wrote(before, before, keys[..0], files[..0])
  {
  }

  lemma WroteNext(before: map<string, string>, mid: map<string, string>, keys: seq<string>, files: seq<string>, k: nat)
    requires k < |keys| == |files| && Distinct(keys) && Wrote(before, mid, keys[..k], files[..k])
    ensures Wrote(before, mid[keys[k] := files[k]], keys[..k + 1], files[..k + 1])
  {
    var after := mid[keys[k] := files[k]];
    forall i | 0 <= i <= k ensures keys[i] in after && after[keys[i]] == files[i] {
      if i < k {
        assert keys[..k][i] in mid && mid[keys[..k][i]] == files[..k][i];
        assert keys[i] != keys[k];
      }
    }
    assert keys[..k + 1] == keys[..k] + [keys[k]];
  }

  lemma SaveStops(before: map<string, string>, mid: map<string, string>, after: map<string, string>, files: seq<string>,
                  w: World, n: nat)
    requires |w.keys| == |w.saves| == |files| && Distinct(w.keys) && n < |files|
    requires w.saves[n].NotSaved? && w.keys[n] !in before && Wrote(before, mid, w.keys[..n], files[..n])
    requires after == if w.saves[n].partial.Some? then mid[w.keys[n] := w.saves[n].partial.value] else mid
    ensures SavedUpTo(before, after, files, w, n)
  {
    assert w.keys[n] !in w.keys[..n];
    forall i | 0 <= i < n ensures w.keys[i] in after && after[w.keys[i]] == files[i] {
      assert w.keys[..n][i] in mid && mid[w.keys[..n][i]] == files[..n][i];
      assert w.keys[i] != w.keys[n];
    }
  }

  lemma SaveEnds(before: map<string, string>, mid: map<string, string>, files: seq<string>, w: World)
    requires |w.keys| == |w.saves| == |files| && Wrote(before, mid, w.keys[..|files|], files[..|files|])
    ensures SavedUpTo(before, mid, files, w, |files|)
  {
    assert w.keys[..|files|] == w.keys && files[..|files|] == files;
  }

  /** The disk after the saved files have been taken back as far as possible. */
  ghost predicate TakenBack(mid: map<string, string>, after: map<string, string>, keys: set<string>,
                            stuck: set<string>) {
    (forall k :: k in after <==> k in mid && (k in stuck || k !in keys)) && forall k | k in after :: after[k] == mid[k]
  }

  function FirstKeys(w: World, n: nat): set<string>
    requires n <= |w.keys|
  {
    set i | 0 <= i < n :: w.keys[i]
  }

  ghost predicate RanOut(before: map<string, string>, mid: map<string, string>, after: map<string, string>,
                         files: seq<string>,
                         w: World)
  {
    && |w.keys| == |w.saves| == |files| && Distinct(w.keys) && (forall i | 0 <= i < |files| :: w.keys[i] !in before)
    && var n := FirstFailure(w.saves);
    && SavedUpTo(before, mid, files, w, n) && TakenBack(mid, after, FirstKeys(w, n), w.stuck)
  }

  lemma RemainingAt(before: map<string, string>, mid: map<string, string>, after: map<string, string>,
                    files: seq<string>,
                    w: World, i: nat)
    requires RanOut(before, mid, after, files, w) && i < |files|
    ensures w.keys[i] in after <==> w.keys[i] in Remains(files, w)
    ensures w.keys[i] in after ==> after[w.keys[i]] == Remains(files, w)[w.keys[i]]
  {
    var n := FirstFailure(w.saves);
    RemainsAt(files, w, i);
    hide Remains, FirstFailure;
    assert w.keys[i] in FirstKeys(w, n) <==> i < n;
    if i > n {
      assert w.keys[i] !in w.keys[..n] && w.keys[i] != w.keys[n];
    }
  }

  lemma RemainingElsewhere(before: map<string, string>, mid: map<string, string>, after: map<string, string>,
                           files: seq<string>,
                           w: World, key: string)
    requires RanOut(before, mid, after, files, w) && key !in w.keys
    ensures key !in Remains(files, w)
    ensures (key in after <==> key in before) && (key in before ==> after[key] == before[key])
  {
    RemainsOnly(files, w, key);
    hide Remains, FirstFailure;
    assert key !in FirstKeys(w, FirstFailure(w.saves));
  }

  lemma RemainingFor(before: map<string, string>, mid: map<string, string>, after: map<string, string>,
                     files: seq<string>,
                     w: World, key: string)
    requires RanOut(before, mid, after, files, w)
    ensures key in after <==> key in before || key in Remains(files, w)
    ensures key in after ==> after[key] == if key in Remains(files, w) then Remains(files, w)[key] else before[key]
  {
    if key in w.keys {
      var i :| 0 <= i < |files| && w.keys[i] == key;
      RemainingAt(before, mid, after, files, w, i);
    } else {
      RemainingElsewhere(before, mid, after, files, w, key);
    }
  }

  lemma Remaining(before: map<string, string>, mid: map<string, string>, after: map<string, string>,
                  files: seq<string>, w: World)
    requires RanOut(before, mid, after, files, w)
    ensures after == before + Remains(files, w)
  {
    var left := Remains(files, w);
    forall k
      ensures k in after <==> k in before || k in left
      ensures k in after ==> after[k] == if k in left then left[k] else before[k]
    {
      RemainingFor(before, mid, after, files, w, k);
    }
    hide *;
    SameMap(after, before + left);
  }

  lemma SameMap(a: map<string, string>, b: map<string, string>)
    requires forall k :: k in a <==> k in b
    requires forall k | k in a :: a[k] == b[k]
    ensures a == b
  {
    assert a.Keys == b.Keys;
  }

  lemma KnownAtFirst(digest: Digest, stored: set<string>, files: seq<string>)
    ensures forall h :: Known(digest, stored, files, 0, h) <==> h in stored
  {
  }

  class EvidenceService {
    const digest: Digest
    var disk: map<string, string>
    var rows: map<nat, Row>
    /** The Needs, and whether their evidence may still be changed. */
    var needs: map<nat, bool>

    constructor (digest: Digest)
      ensures this.digest == digest && disk == map[] && rows == map[] && needs == map[]
    {
      this.digest := digest;
      disk, rows, needs := map[], map[], map[];
    }

    method SaveFile(key: string, content: string, result: SaveResult) returns (ok: bool)
      modifies this`disk
      ensures ok == result.Saved?
      ensures disk == if result.Saved? then old(disk)[key := content]
                      else if result.partial.Some? then old(disk)[key := result.partial.value]
                      else old(disk)
    {
      if result.Saved? {
        disk := disk[key := content];
      } else if result.partial.Some? {
        disk := disk[key := result.partial.value];
      }
      return result.Saved?;
    }

    /** A failing removal is not reported. */
    method RemoveFile(key: string, ok: bool)
      modifies this`disk
      ensures disk == if ok then old(disk) - {key} else old(disk)
    {
      if ok { disk := disk - {key}; }
    }

    method SaveAll(files: seq<string>, known: set<string>, w: World) returns (prepared: seq<Prepared>, ok: bool)
      requires w.Fresh(|files|, disk, rows)
      modifies this`disk
      ensures |prepared| <= |files| && prepared == Expected(digest, known, files, w.keys)[..|prepared|]
      ensures ok ==> |prepared| == |files|
      ensures !ok ==> |prepared| < |files| && w.saves[|prepared|].NotSaved?
      ensures forall i | 0 <= i < |prepared| :: w.saves[i].Saved?
      ensures SavedUpTo(old(disk), disk, files, w, |prepared|)
    {
      hide Known, Expected, SavedUpTo, Wrote;
      prepared := [];
      var seen := known;
      KnownAtFirst(digest, known, files);
      ExpectedNone(digest, known, files, w.keys);
      WroteNone(disk);
      for i := 0 to |files|
        invariant |prepared| == i && prepared == Expected(digest, known, files, w.keys)[..i]
        invariant forall h :: h in seen <==> Known(digest, known, files, i, h)
        invariant forall j | 0 <= j < i :: w.saves[j].Saved?
        invariant Wrote(old(disk), disk, w.keys[..i], files[..i])
      {
        var fileHash := digest(files[i]);
        var isDuplicate := fileHash in seen;
        seen := seen + {fileHash};
        forall h ensures Known(digest, known, files, i + 1, h) <==> Known(digest, known, files, i, h) || h == fileHash {
          KnownNext(digest, known, files, i, h);
        }
        ghost var mid := disk;
        var saved := SaveFile(w.keys[i], files[i], w.saves[i]);
        if !saved {
          SaveStops(old(disk), mid, disk, files, w, i);
          return prepared, false;
        }
        prepared := prepared + [Prepared(w.keys[i], fileHash, isDuplicate)];
        ExpectedNext(digest, known, files, w.keys, i);
        WroteNext(old(disk), mid, w.keys, files, i);
      }
      SaveEnds(old(disk), disk, files, w);
      ok := true;
    }

    /** Takes back what was saved. */
    method RollBack(prepared: seq<Prepared>, stuck: set<string>)
      modifies this`disk
      ensures TakenBack(old(disk), disk, KeysOf(prepared), stuck)
    {
      hide KeysOf;
      KeysOfNone();
      for i := 0 to |prepared|
        invariant forall k :: k in disk <==> k in old(disk) && (k in stuck || k !in KeysOf(prepared[..i]))
        invariant forall k | k in disk :: disk[k] == old(disk)[k]
      {
        assert KeysOf(prepared[..i + 1]) == KeysOf(prepared[..i]) + {prepared[i].key} by {
          assert prepared[..i + 1] == prepared[..i] + [prepared[i]];
          KeysSnoc(prepared[..i], prepared[i]);
        }
        RemoveFile(prepared[i].key, prepared[i].key !in stuck);
      }
      assert prepared[..|prepared|] == prepared;
    }

    /** The rows of the batch, all inserted by one transaction. */
    method CreateRows(needId: nat, prepared: seq<Prepared>, ids: seq<nat>) returns (all: map<nat, Row>)
      requires |ids| == |prepared|
      ensures all == Inserted(rows, needId, prepared, ids)
    {
      all := rows;
      for i := 0 to |ids|
        invariant all == Inserted(rows, needId, prepared[..i], ids[..i])
      {
        all := all[ids[i] := Row(needId, prepared[i].key, Some(prepared[i].hash))];
        assert prepared[..i + 1][..i] == prepared[..i] && ids[..i + 1][..i] == ids[..i];
      }
      assert prepared[..|ids|] == prepared && ids[..|ids|] == ids;
    }

    /** Saves the files and creates their rows, or takes the files back. */
    method Store(needId: nat, files: seq<string>, w: World) returns (r: Result<seq<Prepared>, Error>)
      requires w.Fresh(|files|, disk, rows)
      modifies this`disk, this`rows
      ensures r == match WhyStoreFails(w)
                   case None => Success(Expected(digest, HashesOf(old(rows), needId), files, w.keys))
                   case Some(error) => Failure(error)
      ensures r.Success? || r.error == AuditFailed ==>
        && Wrote(old(disk), disk, w.keys, files)
        && rows == Inserted(old(rows), needId, Expected(digest, HashesOf(old(rows), needId), files, w.keys), w.ids)
      ensures r.Failure? && r.error != AuditFailed ==> rows == old(rows) && disk == old(disk) + Remains(files, w)
    {
      hide SavedUpTo, TakenBack, Remains, FirstFailure, KeysOf, FirstKeys, Wrote;
      var prepared, saved := SaveAll(files, HashesOf(rows, needId), w);
      FailsAt(w, |prepared|);
      PreparedKeys(digest, HashesOf(rows, needId), files, w, prepared);
      ghost var mid := disk;
      if !saved {
        RollBack(prepared, w.stuck);
        Remaining(old(disk), mid, disk, files, w);
        return Failure(SaveFailed);
      }
      AllSaved(old(disk), disk, files, w);
      assert prepared == Expected(digest, HashesOf(rows, needId), files, w.keys);
      if !w.commitOk {
        RollBack(prepared, w.stuck);
        Remaining(old(disk), mid, disk, files, w);
        return Failure(CommitFailed);
      }
      var all := CreateRows(needId, prepared, w.ids);
      rows := all;
      return if w.auditOk then Success(prepared) else Failure(AuditFailed);
    }

    /** An upload stores every file with its row, or fails for the first thing that goes wrong. If a check refuses it,
        the stores stay as they were; if a save or the commit fails, the rows do, and the disk keeps exactly what
        remains. */
    method Upload(needId: nat, files: seq<string>, valid: string -> bool, w: World)
        returns (r: Result<seq<Prepared>, Error>)
      requires w.Fresh(|files|, disk, rows)
      modifies this`disk, this`rows
      ensures r == match WhyFails(valid, needs, old(rows), needId, files, w)
                   case None => Success(Expected(digest, HashesOf(old(rows), needId), files, w.keys))
                   case Some(error) => Failure(error)
      ensures r.Success? ==>
        && |r.value| == |files|
        && forall i | 0 <= i < |files| ::
             && r.value[i].key == w.keys[i] && r.value[i].hash == digest(files[i])
             && (r.value[i].duplicate <==> IsDuplicate(digest, old(rows), needId, files, i))
      ensures r.Success? || r.error == AuditFailed ==>
        && Wrote(old(disk), disk, w.keys, files)
        && rows == Inserted(old(rows), needId, Expected(digest, HashesOf(old(rows), needId), files, w.keys), w.ids)
      ensures r.Failure? && r.error != AuditFailed ==>
        && rows == old(rows)
        && disk == if r.error in {SaveFailed, CommitFailed} then old(disk) + Remains(files, w) else old(disk)
    {
      for i := 0 to |files|
        invariant forall j | 0 <= j < i :: valid(files[j])
      {
        if !valid(files[i]) { return Failure(InvalidFile); }
      }
      if needId !in needs { return Failure(NeedNotFound); }
      if !needs[needId] { return Failure(NotEditable); }
      if |RowsOf(rows, needId)| + |files| > MAX_FILES { return Failure(LimitReached); }
      ghost var before := rows;
      r := Store(needId, files, w);
      forall i | 0 <= i < |files|
        ensures Known(digest, HashesOf(before, needId), files, i, digest(files[i]))
           <==> IsDuplicate(digest, before, needId, files, i)
      {
        DuplicateKnown(digest, before, needId, files, i);
      }
    }

    /** Deletes the row first and its file afterwards. */
    method Remove(id: nat, unlinkOk: bool) returns (r: Result<Row, Error>)
      modifies this`disk, this`rows
      ensures r == if id !in old(rows) then Failure(EvidenceNotFound)
                   else if old(rows)[id].needId in needs && !needs[old(rows)[id].needId] then Failure(NotDeletable)
                   else Success(old(rows)[id])
      ensures r.Failure? ==> rows == old(rows) && disk == old(disk)
      ensures r.Success? ==> rows == old(rows) - {id} && disk == if unlinkOk then old(disk) - {r.value.key}
          else old(disk)
    {
      if id !in rows { return Failure(EvidenceNotFound); }
      var existing := rows[id];
      if existing.needId in needs && !needs[existing.needId] { return Failure(NotDeletable); }
      rows := rows - {id};
      RemoveFile(existing.key, unlinkOk);
      return Success(existing);
    }
  }

  lemma KeysOfNone()
    ensures KeysOf([]) == {}
  {
  }

  lemma KeysSnoc(prepared: seq<Prepared>, p: Prepared)
    ensures KeysOf(prepared + [p]) == KeysOf(prepared) + {p.key}
  {
    var all := prepared + [p];
    forall k | k in KeysOf(prepared) + {p.key} ensures k in KeysOf(all) {
      if k == p.key { assert all[|prepared|].key == k; }
      else {
        var i :| 0 <= i < |prepared| && prepared[i].key == k;
        assert all[i].key == k;
      }
    }
  }

  lemma PreparedKeys(digest: Digest, known: set<string>, files: seq<string>, w: World, prepared: seq<Prepared>)
    requires |w.keys| == |files| && |prepared| <= |files|
    requires prepared == Expected(digest, known, files, w.keys)[..|prepared|]
    ensures KeysOf(prepared) == FirstKeys(w, |prepared|)
  {
    forall i | 0 <= i < |prepared| ensures prepared[i].key == w.keys[i] {
    }
  }

  lemma AllSaved(before: map<string, string>, mid: map<string, string>, files: seq<string>, w: World)
    requires |w.keys| == |w.saves| == |files| && SavedUpTo(before, mid, files, w, |files|)
    ensures Wrote(before, mid, w.keys, files)
  {
    assert w.keys[..|files|] == w.keys;
  }

  lemma FailsAt(w: World, n: nat)
    requires n <= |w.saves| && (forall i | 0 <= i < n :: w.saves[i].Saved?) && (n < |w.saves| ==> w.saves[n].NotSaved?)
    ensures FirstFailure(w.saves) == n
  {
  }

  /** An upload that fails before its commit leaves the disk as it was if and only if every file saved before
      the failure can be removed and the failing save has written nothing. */
  lemma NothingLeft(disk: map<string, string>, rows: map<nat, Row>, files: seq<string>, w: World)
    requires w.Fresh(|files|, disk, rows)
    ensures var n := FirstFailure(w.saves);
      disk + Remains(files, w) == disk
      <==> (forall i | 0 <= i < n :: w.keys[i] !in w.stuck) && (n < |files| ==> w.saves[n].partial == None)
  {
    var n, left := FirstFailure(w.saves), Remains(files, w);
    forall i | 0 <= i < n && w.keys[i] in w.stuck ensures w.keys[i] in disk + left && w.keys[i] !in disk {
      assert w.keys[i] in left;
    }
    if n < |files| && w.saves[n].partial.Some? {
      assert w.keys[n] in disk + left;
    }
  }

  lemma OneMoreRow(rows: map<nat, Row>, needId: nat, id: nat, row: Row)
    requires id !in rows && row.needId == needId
    ensures |RowsOf(rows[id := row], needId)| == |RowsOf(rows, needId)| + 1
  {
    assert RowsOf(rows[id := row], needId) == RowsOf(rows, needId) + {id};
  }

  /** The limit holds after an upload as it did before. */
  lemma {:induction false} LimitKept(rows: map<nat, Row>, needId: nat, prepared: seq<Prepared>, ids: seq<nat>)
    requires |ids| == |prepared| && Distinct(ids) && forall i | 0 <= i < |ids| :: ids[i] !in rows
    ensures |RowsOf(Inserted(rows, needId, prepared, ids), needId)| == |RowsOf(rows, needId)| + |ids|
    decreases |ids|
  {
    if ids != [] {
      var n := |ids| - 1;
      var some := Inserted(rows, needId, prepared[..n], ids[..n]);
      LimitKept(rows, needId, prepared[..n], ids[..n]);
      InsertedRows(rows, needId, prepared[..n], ids[..n]);
      assert ids[n] !in ids[..n] && ids[n] !in some;
      hide Inserted;
      OneMoreRow(some, needId, ids[n], Row(needId, prepared[n].key, Some(prepared[n].hash)));
    }
  }
}
