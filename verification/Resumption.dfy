/**
 What a worker resumes from after a crash (internal/ingest/worker.go:44-50, 210-237):
 over every run, the position of its last successful save, and nothing older.
 */
module Resumption {
  import opened FeedLog
  import opened CursorCodec
  import opened Pipeline
  import opened NoGap

  /** The step ends with a successful save: of an advanced position, or of a fresh start. */
  ghost predicate Persists(s: State, step: Step)
    requires s.epoch in s.logs
  {
    Enabled(s, step) &&
    match step
    case Process(_, processed, saveOk) => processed && saveOk
    case ServeCatalog(_, _, _, saveOk) => saveOk && s.cs.catCursor != 0 && s.cs.epoch != s.epoch
    case ServeOffers(_, _, saveOk) =>
      saveOk && (s.cs.epoch != s.epoch || s.cs.seqNo > |s.Log()| || s.cs.seqNo < Horizon(|s.Log()|))
    case _ => false
  }

  /** Step k of the run was its last successful save. */
  ghost predicate LastSave(s0: State, steps: seq<Step>, k: nat)
    requires s0.epoch in s0.logs
  {
    && k < |steps| && Persists(Exec(s0, steps[..k]), steps[k])
    && forall j :: k < j < |steps| ==> !Persists(Exec(s0, steps[..j]), steps[j])
  }

  /** The stored text stands for the position in memory. */
  ghost predicate InStep(s: State) {
    Parse(s.saved) == s.cs && s.savedPin == s.pin
  }

  ghost predicate SameText(s: State, s': State) {
    s'.saved == s.saved && s'.savedPin == s.savedPin
  }

  lemma EncodedIsInStep(s: State)
    requires Restorable(s.cs) && s.saved == Encode(s.cs) && s.savedPin == s.pin
    ensures InStep(s)
  {
    RoundTrip(s.cs);
  }

  lemma FinishStores(s: State, saveOk: bool)
    requires Inv(s) && s.page.Some?
    ensures var s' := Finish(s, s.page.value, saveOk); if saveOk then InStep(s') else SameText(s, s')
  {
    var s' := Finish(s, s.page.value, saveOk);
    FinishKeepsInv(s, saveOk);
    if saveOk {
      EncodedIsInStep(s');
    }
  }

  lemma ProcessStores(s: State, table: Table, processed: bool, saveOk: bool)
    requires Inv(s) && s.page.Some?
    ensures var s' := ProcessPage(s, table, processed, saveOk); if processed && saveOk then InStep(s') else SameText(s, s')
  {
    var s1 := s.(table := table);
    BystanderKeepsInv(s, s1);
    FinishStores(s1, saveOk);
  }

  lemma StartOverStores(s: State, saveOk: bool)
    ensures var s' := StartOver(s, saveOk); if saveOk then InStep(s') else SameText(s, s')
  {
    if saveOk {
      EncodedIsInStep(StartOver(s, saveOk));
    }
  }

  lemma ServeStores(s: State, step: Step)
    requires Inv(s) && Enabled(s, step) && (step.ServeCatalog? || step.ServeOffers?)
    ensures if Persists(s, step) then InStep(Do(s, step)) else SameText(s, Do(s, step))
  {
    StartOverStores(if step.ServeCatalog? then s.(clock := step.now) else s, step.saveOk);
  }

  /** A step either makes the stored text stand for the position it ends with, or leaves the text alone. */
  lemma StepStores(s: State, step: Step)
    requires Inv(s)
    ensures if Persists(s, step) then InStep(Do(s, step)) else SameText(s, Do(s, step))
  {
    if Enabled(s, step) {
      match step
      case Process(table, processed, saveOk) => ProcessStores(s, table, processed, saveOk);
      case ServeCatalog(_, _, _, _) => ServeStores(s, step);
      case ServeOffers(_, _, _) => ServeStores(s, step);
      case _ =>
    }
  }

  lemma LastSaveBefore(s0: State, steps: seq<Step>, k: nat)
    requires s0.epoch in s0.logs && steps != [] && LastSave(s0, steps, k) && k < |steps| - 1
    ensures LastSave(s0, steps[..|steps| - 1], k)
  {
    var front := steps[..|steps| - 1];
    assert front[..k] == steps[..k];
    forall j | k < j < |front| ensures !Persists(Exec(s0, front[..j]), front[j]) {
      assert front[..j] == steps[..j];
    }
  }

  lemma {:induction false} TextUnmoved(s0: State, steps: seq<Step>, k: nat)
    requires Init(s0) && LastSave(s0, steps, k)
    ensures Exec(s0, steps).saved == Exec(s0, steps[..k + 1]).saved && Exec(s0, steps).savedPin == Exec(s0, steps[..k + 1]).savedPin
  {
    var n := |steps| - 1;
    if k < n {
      LastSaveBefore(s0, steps, k);
      TextUnmoved(s0, steps[..n], k);
      assert steps[..n][..k + 1] == steps[..k + 1];
      RunKeepsInv(s0, steps[..n]);
      StepStores(Exec(s0, steps[..n]), steps[n]);
    } else {
      assert steps[..k + 1] == steps;
    }
  }

  lemma SavedHere(s0: State, steps: seq<Step>, k: nat) returns (at: State)
    requires Init(s0) && LastSave(s0, steps, k)
    ensures at == Exec(s0, steps[..k + 1]) && Parse(at.saved) == at.cs && at.savedPin == at.pin
  {
    RunKeepsInv(s0, steps[..k]);
    StepStores(Exec(s0, steps[..k]), steps[k]);
    assert steps[..k + 1][..k] == steps[..k];
    at := Do(Exec(s0, steps[..k]), steps[k]);
  }

  /** In every reachable state the stored text stands for the position right after the last successful save. */
  lemma StoredIsLastSave(s0: State, steps: seq<Step>, k: nat)
    requires Init(s0) && LastSave(s0, steps, k)
    ensures var s, at := Exec(s0, steps), Exec(s0, steps[..k + 1]); Parse(s.saved) == at.cs && s.savedPin == at.pin
  {
    TextUnmoved(s0, steps, k);
    var at := SavedHere(s0, steps, k);
  }

  ghost predicate NeverSaved(s0: State, steps: seq<Step>)
    requires s0.epoch in s0.logs
  {
    steps == []
    || (NeverSaved(s0, steps[..|steps| - 1]) && !Persists(Exec(s0, steps[..|steps| - 1]), steps[|steps| - 1]))
  }

  lemma {:induction false} FirstTextUnmoved(s0: State, steps: seq<Step>)
    requires Init(s0) && NeverSaved(s0, steps)
    ensures Exec(s0, steps).saved == s0.saved
  {
    if steps != [] {
      var n := |steps| - 1;
      FirstTextUnmoved(s0, steps[..n]);
      RunKeepsInv(s0, steps[..n]);
      StepStores(Exec(s0, steps[..n]), steps[n]);
    }
  }

  lemma CrashReloads(s: State, at: CursorState)
    requires s.epoch in s.logs && Parse(s.saved) == at
    ensures var s' := Do(s, Crash(true));
      s'.cs == at && s'.pin == s.savedPin && s'.page.None? && s'.table == s.table && s'.saved == s.saved
      && s'.handed == s.handed && s'.listed == s.listed && s'.logs == s.logs
  {}

  /**
   A crash with a good load resumes exactly at the position of the last successful
   save; the table and the record of what was handed over survive.
   */
  lemma CrashResumesAtLastSave(s0: State, steps: seq<Step>, k: nat)
    requires Init(s0) && LastSave(s0, steps, k)
    ensures var s, s' := Exec(s0, steps), Do(Exec(s0, steps), Crash(true));
      && s'.cs == Exec(s0, steps[..k + 1]).cs && s'.page.None?
      && s'.table == s.table && s'.handed == s.handed && s'.listed == s.listed && s'.logs == s.logs
  {
    StoredIsLastSave(s0, steps, k);
    CrashReloads(Exec(s0, steps), Exec(s0, steps[..k + 1]).cs);
  }

  /** The worker starts afresh only without any save so far, or when the text cannot be loaded. */
  lemma CrashStartsAfresh(s0: State, steps: seq<Step>, loadOk: bool)
    requires Init(s0) && (loadOk ==> NeverSaved(s0, steps))
    ensures Do(Exec(s0, steps), Crash(loadOk)).cs == CursorState(Catalog, 0, 0, 0)
  {
    if loadOk {
      FirstTextUnmoved(s0, steps);
      CrashReloads(Exec(s0, steps), FRESH);
    }
  }

  /** A page that was processed and saved is never asked for again because of a crash. */
  lemma CrashAfterSaveLosesNothing(s: State, table: Table)
    requires Inv(s) && s.page.Some?
    ensures var s', p := Do(s, Process(table, true, true)), s.page.value;
      && Do(s', Crash(true)).cs == s'.cs && s'.cs.epoch == p.epoch
      && (p.body.Replayed? ==> s'.cs.phase == Offers && s'.cs.seqNo == p.end)
      && (p.body.Listed? ==> if p.end < |s.catalog| then s'.cs.phase == Catalog && s'.cs.catCursor == p.end else s'.cs.phase == Offers)
  {
    var s' := Do(s, Process(table, true, true));
    StepStores(s, Process(table, true, true));
    CrashReloads(s', s'.cs);
  }
}
