/** An upload that no other request disturbs is a run of the interleaved machine's steps. */
module EvidenceRuns {
  import opened Wrappers
  import opened Evidence
  import opened EvidenceServices

  /** The first `n` saves. */
  function SaveEvents(rid: nat, w: World, n: nat): seq<Event>
    requires n <= |w.keys| == |w.saves|
  {
    if n == 0 then [] else SaveEvents(rid, w, n - 1) + [Save(rid, w.keys[n - 1], w.saves[n - 1])]
  }

  /** The removals of the first `n` files. */
  function UnlinkEvents(rid: nat, w: World, n: nat): seq<Event>
    requires n <= |w.keys|
  {
    if n == 0 then []
    else UnlinkEvents(rid, w, n - 1) + [Unlink(rid, w.keys[n - 1], w.keys[n - 1] !in w.stuck)]
  }

  /** What happens once the hashes are read. */
  function StoreEvents(rid: nat, w: World): seq<Event>
    requires |w.keys| == |w.saves|
  {
    var n := FirstFailure(w.saves);
    if n < |w.saves| then SaveEvents(rid, w, n + 1) + UnlinkEvents(rid, w, n)
    else SaveEvents(rid, w, n) + ([Commit(rid, w.ids, w.commitOk)] + if w.commitOk then [] else UnlinkEvents(rid, w, n))
  }

  lemma {:induction false} RunAppend(digest: Digest, s: State, xs: seq<Event>, ys: seq<Event>)
    ensures RunFrom(digest, s, xs + ys) == RunFrom(digest, RunFrom(digest, s, xs), ys)
    decreases |xs|
  {
    if xs == [] {
      assert xs + ys == ys;
    } else {
      hide Step;
      assert (xs + ys)[1..] == xs[1..] + ys;
      RunAppend(digest, Step(digest, s, xs[0]), xs[1..], ys);
    }
  }

  lemma RunNone(digest: Digest, s: State)
    ensures RunFrom(digest, s, []) == s
  {
  }

  lemma RunOne(digest: Digest, s: State, e: Event)
    ensures RunFrom(digest, s, [e]) == Step(digest, s, e)
  {
    hide Step;
    assert [e][1..] == [];
    assert RunFrom(digest, Step(digest, s, e), []) == Step(digest, s, e);
  }

  // ---------------------------------------------------------------- saving

  /** The first `k` files are saved, by this request, and nothing else has changed. */
  ghost predicate Progress(digest: Digest, s: State, t: State, rid: nat, needId: nat, files: seq<string>, w: World,
                           k: nat) {
    && k <= |files| == |w.keys| && rid in t.requests && t.requests[rid].Saving?
    && Tracks(digest, t.requests[rid], needId, files, HashesOf(s.rows, needId))
    && var prepared := t.requests[rid].prepared;
    && |prepared| == k && (forall i | 0 <= i < k :: prepared[i].key == w.keys[i])
    && t.rows == s.rows && t.gone == s.gone && Wrote(s.disk, t.disk, w.keys[..k], files[..k])
    && (forall key | key in t.owners :: key in s.owners || key in w.keys[..k])
  }

  lemma SaveIs(digest: Digest, t: State, rid: nat, key: string)
    requires rid in t.requests && t.requests[rid].Saving? && t.requests[rid].todo != [] && key !in t.owners
    ensures var u := Step(digest, t, Save(rid, key, Saved)); var r := t.requests[rid];
      && u.disk == t.disk[key := r.todo[0]] && u.rows == t.rows && u.gone == t.gone
      && u.owners == t.owners[key := OfRequest(rid)]
      && rid in u.requests && u.requests[rid].Saving? && |u.requests[rid].prepared| == |r.prepared| + 1
      && u.requests[rid].prepared[..|r.prepared|] == r.prepared && u.requests[rid].prepared[|r.prepared|].key == key
  {
  }

  lemma ProgressStep(digest: Digest, s: State, t: State, rid: nat, needId: nat, files: seq<string>, w: World, k: nat)
    requires Progress(digest, s, t, rid, needId, files, w, k) && k < |files| == |w.saves| && w.saves[k].Saved?
    requires Distinct(w.keys) && w.keys[k] !in s.owners
    ensures Progress(digest, s, Step(digest, t, Save(rid, w.keys[k], w.saves[k])), rid, needId, files, w, k + 1)
  {
    var key := w.keys[k];
    var u := Step(digest, t, Save(rid, key, w.saves[k]));
    hide Tracks, Wrote, Step;
    assert key !in w.keys[..k];
    assert w.keys[..k + 1] == w.keys[..k] + [key];
    TodoIs(digest, t.requests[rid], needId, files, HashesOf(s.rows, needId));
    StepTracks(digest, t, Save(rid, key, w.saves[k]), rid, needId, files, HashesOf(s.rows, needId));
    WroteNext(s.disk, t.disk, w.keys, files, k);
    SaveIs(digest, t, rid, key);
    var prepared := u.requests[rid].prepared;
    forall i | 0 <= i <= k ensures prepared[i].key == w.keys[i] {
      if i < k { assert prepared[i] == prepared[..k][i]; }
    }
  }

  lemma TodoIs(digest: Digest, r: Request, needId: nat, files: seq<string>, stored: set<string>)
    requires r.Saving? && Tracks(digest, r, needId, files, stored)
    ensures |r.prepared| <= |files| && r.todo == files[|r.prepared|..]
  {
  }

  lemma {:induction false} SavesRun(digest: Digest, s: State, rid: nat, needId: nat, files: seq<string>, w: World,
                                    k: nat)
    requires Progress(digest, s, s, rid, needId, files, w, 0)
    requires k <= FirstFailure(w.saves) && |files| == |w.saves| == |w.keys| && Distinct(w.keys)
    requires forall i | 0 <= i < |w.keys| :: w.keys[i] !in s.owners
    ensures Progress(digest, s, RunFrom(digest, s, SaveEvents(rid, w, k)), rid, needId, files, w, k)
  {
    hide Progress, Step, RunFrom, FirstFailure;
    if k == 0 {
      RunNone(digest, s);
    } else {
      var e := Save(rid, w.keys[k - 1], w.saves[k - 1]);
      var t := RunFrom(digest, s, SaveEvents(rid, w, k - 1));
      SavesRun(digest, s, rid, needId, files, w, k - 1);
      RunAppend(digest, s, SaveEvents(rid, w, k - 1), [e]);
      RunOne(digest, t, e);
      ProgressStep(digest, s, t, rid, needId, files, w, k - 1);
    }
  }

  lemma PreparedIs(digest: Digest, s: State, t: State, rid: nat, needId: nat, files: seq<string>, w: World, k: nat)
    requires Progress(digest, s, t, rid, needId, files, w, k)
    ensures t.requests[rid].prepared == Expected(digest, HashesOf(s.rows, needId), files, w.keys)[..k]
    ensures KeysOf(t.requests[rid].prepared) == FirstKeys(w, k)
  {
    var prepared := t.requests[rid].prepared;
    assert forall i | 0 <= i < k :: prepared[i].key == w.keys[i];
  }

  // ---------------------------------------------------------------- taking back

  /** The first `k` files are taken back as far as possible. */
  ghost predicate Undone(s: State, t: State, rid: nat, w: World, n: nat, k: nat) {
    && k <= n <= |w.keys| && rid in t.requests
    && t.requests[rid] == Unlinking(FirstKeys(w, n) - FirstKeys(w, k))
    && t.rows == s.rows && TakenBack(s.disk, t.disk, FirstKeys(w, k), w.stuck)
  }

  lemma UndoneStep(digest: Digest, s: State, t: State, rid: nat, w: World, n: nat, k: nat)
    requires Undone(s, t, rid, w, n, k) && k < n && Distinct(w.keys)
    ensures Undone(s, Step(digest, t, Unlink(rid, w.keys[k], w.keys[k] !in w.stuck)), rid, w, n, k + 1)
  {
    assert FirstKeys(w, k + 1) == FirstKeys(w, k) + {w.keys[k]};
    assert w.keys[k] !in FirstKeys(w, k);
    assert w.keys[k] in FirstKeys(w, n);
  }

  lemma {:induction false} UnlinksRun(digest: Digest, s: State, rid: nat, w: World, n: nat, k: nat)
    requires n <= |w.keys| && Distinct(w.keys) && rid in s.requests && s.requests[rid] == Unlinking(FirstKeys(w, n))
        && k <= n
    ensures Undone(s, RunFrom(digest, s, UnlinkEvents(rid, w, k)), rid, w, n, k)
  {
    hide Step, RunFrom, FirstKeys;
    if k == 0 {
      RunNone(digest, s);
      NothingUndone(s, rid, w, n);
    } else {
      hide Undone;
      var e := Unlink(rid, w.keys[k - 1], w.keys[k - 1] !in w.stuck);
      var t := RunFrom(digest, s, UnlinkEvents(rid, w, k - 1));
      UnlinksRun(digest, s, rid, w, n, k - 1);
      RunAppend(digest, s, UnlinkEvents(rid, w, k - 1), [e]);
      RunOne(digest, t, e);
      UndoneStep(digest, s, t, rid, w, n, k - 1);
    }
  }

  lemma NothingUndone(s: State, rid: nat, w: World, n: nat)
    requires n <= |w.keys| && rid in s.requests && s.requests[rid] == Unlinking(FirstKeys(w, n))
    ensures Undone(s, s, rid, w, n, 0)
  {
    assert FirstKeys(w, 0) == {};
    assert FirstKeys(w, n) - {} == FirstKeys(w, n);
  }

  lemma AllUndone(s: State, t: State, rid: nat, w: World, n: nat)
    requires Undone(s, t, rid, w, n, n)
    ensures rid in t.requests && t.requests[rid] == Unlinking({}) && t.rows == s.rows
    ensures TakenBack(s.disk, t.disk, FirstKeys(w, n), w.stuck)
  {
  }

  // ---------------------------------------------------------------- the whole upload

  /** What an upload has done to the stores: the postcondition of the service's own upload. */
  ghost predicate Uploaded(digest: Digest, s: State, t: State, needId: nat, files: seq<string>, w: World)
    requires w.Fresh(|files|, s.disk, s.rows)
  {
    if WhyStoreFails(w) in {None, Some(AuditFailed)} then
      && Wrote(s.disk, t.disk, w.keys, files)
      && t.rows == Inserted(s.rows, needId, Expected(digest, HashesOf(s.rows, needId), files, w.keys), w.ids)
    else
      t.rows == s.rows && t.disk == s.disk + Remains(files, w)
  }

  lemma TakesBack(digest: Digest, s: State, b: State, rid: nat, files: seq<string>, w: World)
    requires w.Fresh(|files|, s.disk, s.rows) && b.rows == s.rows
    requires SavedUpTo(s.disk, b.disk, files, w, FirstFailure(w.saves))
    requires rid in b.requests && b.requests[rid] == Unlinking(FirstKeys(w, FirstFailure(w.saves)))
    ensures var t := RunFrom(digest, b, UnlinkEvents(rid, w, FirstFailure(w.saves)));
      && t.rows == s.rows && t.disk == s.disk + Remains(files, w)
      && rid in t.requests && t.requests[rid] == Unlinking({})
  {
    hide RunFrom, Remains, SavedUpTo, TakenBack, FirstFailure, FirstKeys, Undone, UnlinkEvents;
    var n := FirstFailure(w.saves);
    var t := RunFrom(digest, b, UnlinkEvents(rid, w, n));
    UnlinksRun(digest, b, rid, w, n, n);
    AllUndone(b, t, rid, w, n);
    Remaining(s.disk, b.disk, t.disk, files, w);
  }

  lemma FailingRun(digest: Digest, s: State, rid: nat, w: World)
    requires |w.keys| == |w.saves| && FirstFailure(w.saves) < |w.saves|
    ensures var n := FirstFailure(w.saves);
      RunFrom(digest, s, StoreEvents(rid, w))
      == RunFrom(digest, Step(digest, RunFrom(digest, s, SaveEvents(rid, w, n)), Save(rid, w.keys[n], w.saves[n])),
                 UnlinkEvents(rid, w, n))
  {
    var n := FirstFailure(w.saves);
    var e := Save(rid, w.keys[n], w.saves[n]);
    RunAppend(digest, s, SaveEvents(rid, w, n), [e]);
    RunAppend(digest, s, SaveEvents(rid, w, n + 1), UnlinkEvents(rid, w, n));
    hide RunFrom, Step, FirstFailure;
    RunOne(digest, RunFrom(digest, s, SaveEvents(rid, w, n)), e);
  }

  lemma SaveFails(digest: Digest, s: State, rid: nat, needId: nat, files: seq<string>, w: World)
    requires Progress(digest, s, s, rid, needId, files, w, 0) && w.Fresh(|files|, s.disk, s.rows)
    requires forall i | 0 <= i < |w.keys| :: w.keys[i] !in s.owners
    requires FirstFailure(w.saves) < |w.saves|
    ensures var t := RunFrom(digest, s, StoreEvents(rid, w));
      Uploaded(digest, s, t, needId, files, w) && rid in t.requests && t.requests[rid] == Unlinking({})
  {
    var n := FirstFailure(w.saves);
    assert w.saves[n].NotSaved?;
    hide Progress, RunFrom, Step, Remains, StoreEvents, FirstKeys, SavedUpTo, FirstFailure;
    var a := RunFrom(digest, s, SaveEvents(rid, w, n));
    FailingRun(digest, s, rid, w);
    SavesRun(digest, s, rid, needId, files, w, n);
    PreparedIs(digest, s, a, rid, needId, files, w, n);
    FailedSave(digest, s, a, rid, needId, files, w);
    TakesBack(digest, s, Step(digest, a, Save(rid, w.keys[n], w.saves[n])), rid, files, w);
  }

  lemma FailedSave(digest: Digest, s: State, a: State, rid: nat, needId: nat, files: seq<string>, w: World)
    requires w.Fresh(|files|, s.disk, s.rows) && FirstFailure(w.saves) < |files|
    requires Progress(digest, s, a, rid, needId, files, w, FirstFailure(w.saves))
        && w.keys[FirstFailure(w.saves)] !in s.owners
    ensures var n := FirstFailure(w.saves); var b := Step(digest, a, Save(rid, w.keys[n], w.saves[n]));
      && b.rows == s.rows && rid in b.requests && b.requests[rid] == Unlinking(KeysOf(a.requests[rid].prepared))
      && SavedUpTo(s.disk, b.disk, files, w, n)
  {
    var n := FirstFailure(w.saves);
    assert w.keys[n] !in w.keys[..n];
    TodoIs(digest, a.requests[rid], needId, files, HashesOf(s.rows, needId));
    hide FirstFailure, Tracks;
    forall i | 0 <= i < n ensures w.keys[i] in a.disk && a.disk[w.keys[i]] == files[i] && w.keys[i] != w.keys[n] {
      assert w.keys[..n][i] in a.disk && a.disk[w.keys[..n][i]] == files[..n][i];
    }
  }

  lemma CommittingRun(digest: Digest, s: State, rid: nat, w: World)
    requires |w.keys| == |w.saves| && FirstFailure(w.saves) == |w.saves|
    ensures var n := |w.saves|;
      RunFrom(digest, s, StoreEvents(rid, w))
      == RunFrom(digest, Step(digest, RunFrom(digest, s, SaveEvents(rid, w, n)), Commit(rid, w.ids, w.commitOk)),
                 if w.commitOk then [] else UnlinkEvents(rid, w, n))
  {
    var n := |w.saves|;
    var e := Commit(rid, w.ids, w.commitOk);
    var rest := if w.commitOk then [] else UnlinkEvents(rid, w, n);
    var a := RunFrom(digest, s, SaveEvents(rid, w, n));
    RunAppend(digest, s, SaveEvents(rid, w, n), [e] + rest);
    RunAppend(digest, a, [e], rest);
    hide RunFrom, Step, FirstFailure;
    RunOne(digest, a, e);
  }

  lemma CommitEnds(digest: Digest, s: State, rid: nat, needId: nat, files: seq<string>, w: World)
    requires Progress(digest, s, s, rid, needId, files, w, 0) && w.Fresh(|files|, s.disk, s.rows)
    requires forall i | 0 <= i < |w.keys| :: w.keys[i] !in s.owners
    requires FirstFailure(w.saves) == |w.saves| && needId !in s.gone
    ensures var t := RunFrom(digest, s, StoreEvents(rid, w));
      Uploaded(digest, s, t, needId, files, w) && rid in t.requests && t.requests[rid] in {Over, Unlinking({})}
  {
    var n := |w.saves|;
    var a := RunFrom(digest, s, SaveEvents(rid, w, n));
    var b := Step(digest, a, Commit(rid, w.ids, w.commitOk));
    WhyWhenSaved(w);
    hide Progress, Tracks, RunFrom, Step, Remains, StoreEvents, SaveEvents, UnlinkEvents, FirstKeys, KeysOf, SavedUpTo,
         FirstFailure, Wrote, Inserted, Expected, WhyStoreFails;
    RunNone(digest, b);
    CommittingRun(digest, s, rid, w);
    SavesRun(digest, s, rid, needId, files, w, n);
    PreparedIs(digest, s, a, rid, needId, files, w, n);
    Committing(digest, s, a, rid, needId, files, w);
    AllExpected(digest, HashesOf(s.rows, needId), files, w.keys);
    if !w.commitOk { TakesBack(digest, s, b, rid, files, w); }
  }

  lemma WhyWhenSaved(w: World)
    requires FirstFailure(w.saves) == |w.saves|
    ensures WhyStoreFails(w) == if !w.commitOk then Some(CommitFailed) else if !w.auditOk then Some(AuditFailed)
        else None
  {
  }

  lemma AllExpected(digest: Digest, stored: set<string>, files: seq<string>, keys: seq<string>)
    requires |keys| == |files|
    ensures Expected(digest, stored, files, keys)[..|files|] == Expected(digest, stored, files, keys)
  {
  }

  lemma CommitIs(digest: Digest, t: State, rid: nat, ids: seq<nat>, ok: bool)
    requires rid in t.requests && t.requests[rid].Saving? && t.requests[rid].todo == []
    requires |ids| == |t.requests[rid].prepared| && FreshIds(t, ids) && t.requests[rid].needId !in t.gone
    ensures var u := Step(digest, t, Commit(rid, ids, ok)); var r := t.requests[rid];
      && u.disk == t.disk && rid in u.requests
      && (if ok then u.rows == Inserted(t.rows, r.needId, r.prepared, ids) && u.requests[rid] == Over
          else u.rows == t.rows && u.requests[rid] == Unlinking(KeysOf(r.prepared)))
  {
    hide Inserted, HandedOver, KeysOf;
  }

  lemma Committing(digest: Digest, s: State, a: State, rid: nat, needId: nat, files: seq<string>, w: World)
    requires w.Fresh(|files|, s.disk, s.rows) && Progress(digest, s, a, rid, needId, files, w, |files|)
        && needId !in s.gone
    ensures var prepared := a.requests[rid].prepared; var b := Step(digest, a, Commit(rid, w.ids, w.commitOk));
      && b.disk == a.disk && Wrote(s.disk, a.disk, w.keys, files) && rid in b.requests
      && (if w.commitOk then b.rows == Inserted(s.rows, needId, prepared, w.ids) && b.requests[rid] == Over
          else b.rows == s.rows && b.requests[rid] == Unlinking(KeysOf(prepared)))
      && SavedUpTo(s.disk, b.disk, files, w, |files|)
  {
    assert w.keys[..|files|] == w.keys && files[..|files|] == files;
    TodoNeed(digest, a.requests[rid], needId, files, HashesOf(s.rows, needId));
    hide Tracks, Step, Inserted, KeysOf;
    CommitIs(digest, a, rid, w.ids, w.commitOk);
  }

  lemma TodoNeed(digest: Digest, r: Request, needId: nat, files: seq<string>, stored: set<string>)
    requires r.Saving? && Tracks(digest, r, needId, files, stored) && |r.prepared| == |files|
    ensures r.todo == [] && r.needId == needId
  {
  }

  /** An upload that runs alone goes through the machine's steps to the state its service method promises. */
  lemma UploadIsRun(digest: Digest, s: State, rid: nat, needId: nat, files: seq<string>, w: World)
    requires rid !in s.requests && needId !in s.gone && |RowsOf(s.rows, needId)| + |files| <= MAX_FILES
    requires w.Fresh(|files|, s.disk, s.rows) && forall i | 0 <= i < |w.keys| :: w.keys[i] !in s.owners
    ensures var t := RunFrom(digest, s, [Begin(rid, needId, files, true), ReadHashes(rid)] + StoreEvents(rid, w));
      Uploaded(digest, s, t, needId, files, w) && rid in t.requests && t.requests[rid] in {Over, Unlinking({})}
  {
    var a, b := Begin(rid, needId, files, true), ReadHashes(rid);
    var s1 := Step(digest, s, a);
    var s2 := Step(digest, s1, b);
    RunAppend(digest, s, [a, b], StoreEvents(rid, w));
    assert [a] + [b] == [a, b];
    RunAppend(digest, s, [a], [b]);
    RunOne(digest, s, a);
    RunOne(digest, s1, b);
    Starts(digest, s, s2, rid, needId, files, w);
    hide Progress, RunFrom, Step;
    if FirstFailure(w.saves) < |w.saves| {
      SaveFails(digest, s2, rid, needId, files, w);
    } else {
      CommitEnds(digest, s2, rid, needId, files, w);
    }
  }

  lemma Starts(digest: Digest, s: State, t: State, rid: nat, needId: nat, files: seq<string>, w: World)
    requires w.Fresh(|files|, s.disk, s.rows) && rid !in s.requests
    requires t == Go(s, rid, Saving(needId, files, HashesOf(s.rows, needId), []))
    ensures Progress(digest, t, t, rid, needId, files, w, 0)
  {
    assert files[0..] == files;
  }
}
