/** The feed's own data structure (internal/feedgen/stream.go), proved against the log it stands for. */
module FeedStream {
  import opened Wrappers
  import opened FeedLog

  class Stream {
    const catalog: seq<Listing>
    var buf: seq<Update>
    var nextSeq: nat
    var deltas: map<nat, OfferState>
    var status: Status
    // Every update this instance has emitted since it started.
    ghost var log: seq<Update>

    // The buffer is the log from position `horizon` on; a tick trims it only at its end.
    ghost predicate Buffers(horizon: nat)
      reads this
    {
      && Numbered(catalog, log)
      && nextSeq == |log| + 1
      && horizon <= |log| && buf == log[horizon..]
      && deltas == Overlay(log)
    }

    ghost predicate Valid()
      reads this
    {
      Buffers(Horizon(|log|))
    }

    constructor (catalog: seq<Listing>)
      ensures Valid() && log == [] && status == Active && this.catalog == catalog
    {
      this.catalog := catalog;
      buf, nextSeq, deltas, status, log := [], 1, map[], Active, [];
      new;
      assert log[Horizon(|log|)..] == [];
    }

    method PickCarried(tries: seq<nat>) returns (p: Option<nat>)
      requires forall k :: 0 <= k < |tries| ==> tries[k] < |catalog|
      ensures p == Pick(catalog, tries)
    {
      for k := 0 to |tries|
        invariant Pick(catalog, tries) == Pick(catalog, tries[k..])
      {
        if catalog[tries[k]].carried {
          return Some(tries[k]);
        }
      }
      return None;
    }

    method Emit(now: int, d: Draw, ghost horizon: nat)
      requires Buffers(horizon) && ValidDraw(catalog, d)
      modifies this
      ensures Buffers(horizon) && status == old(status)
      ensures log == Drawn(catalog, old(log), now, d)
    {
      var picked := PickCarried(d.tries);
      if picked.Some? {
        var i := picked.value;
        OverlayIsCurrent(catalog, log, i);
        var cur := if i in deltas then deltas[i] else catalog[i].base;
        cur := MoveOffer(cur, d);
        var u := Update(nextSeq, i, cur, now);
        NumberedAppends(catalog, log, u);
        OverlayAppends(log, u);
        SuffixAppends(log, horizon, u);
        deltas, buf, nextSeq := deltas[i := cur], buf + [u], nextSeq + 1;
        log := log + [u];
      }
    }

    method EmitAll(now: int, draws: seq<Draw>, ghost horizon: nat)
      requires Buffers(horizon) && forall d :: d in draws ==> ValidDraw(catalog, d)
      modifies this
      ensures Buffers(horizon) && status == old(status)
      ensures log == Ticked(catalog, old(log), now, draws)
    {
      assert draws[..0] == [];
      for k := 0 to |draws|
        invariant Buffers(horizon) && status == old(status)
        invariant log == Ticked(catalog, old(log), now, draws[..k])
      {
        assert draws[..k + 1][..k] == draws[..k];
        assert ValidDraw(catalog, draws[k]);
        Emit(now, draws[k], horizon);
      }
      assert draws[..|draws|] == draws;
    }

    /** Emits one update per successful pick, then trims the buffer; a dead feed emits nothing. */
    method Tick(now: int, draws: seq<Draw>)
      requires Valid() && forall d :: d in draws ==> ValidDraw(catalog, d)
      modifies this
      ensures Valid() && status == old(status)
      ensures log == if status == Dead then old(log) else Ticked(catalog, old(log), now, draws)
    {
      if status == Dead {
        return;
      }
      EmitAll(now, draws, Horizon(|log|));
      if |buf| > MAX_BUFFERED {
        buf := buf[|buf| - MAX_BUFFERED..];
      }
    }

    method Current(i: nat) returns (cur: OfferState)
      requires Valid() && i < |catalog|
      ensures cur == StateAt(catalog, log, i)
      ensures forall k :: 0 <= k < |log| && log[k].product == i && (forall j :: k < j < |log| ==> log[j].product != i) ==>
        cur == log[k].offer
      ensures (forall k :: 0 <= k < |log| ==> log[k].product != i) ==> cur == catalog[i].base
    {
      forall k | 0 <= k < |log| && log[k].product == i && forall j :: k < j < |log| ==> log[j].product != i
        ensures StateAt(catalog, log, i) == log[k].offer
      {
        assert log[..|log|] == log;
        StateAfterUpdate(catalog, log, i, k, |log|);
      }
      if forall k :: 0 <= k < |log| ==> log[k].product != i {
        StateOfUntouched(catalog, log, i);
      }
      OverlayIsCurrent(catalog, log, i);
      cur := if i in deltas then deltas[i] else catalog[i].base;
    }

    /** The buffer answers for the whole log: gone, or exactly the next stretch after `since`. */
    method UpdatesSince(since: nat, limit: nat) returns (answer: Answer)
      requires Valid()
      ensures answer == Since(log, since, limit)
      ensures answer.Gone? <==> since > |log| || since + MAX_BUFFERED < |log|
      ensures answer.Window? ==> (
        && |answer.updates| == (if since + limit < |log| then limit else |log| - since)
        && answer.updates == log[since..since + |answer.updates|]
        && (answer.hasMore <==> since + |answer.updates| < |log|))
    {
      if since > nextSeq - 1 {
        return Gone;
      }
      if |buf| > 0 && since + 1 < buf[0].seqNo {
        return Gone;
      }
      if |buf| == 0 && since + 1 < nextSeq {
        return Gone;
      }
      var start := |buf|;
      while start > 0 && buf[start - 1].seqNo > since
        invariant since - Horizon(|log|) <= start <= |buf|
      {
        start := start - 1;
      }
      assert start == since - Horizon(|log|);
      var end := if start + limit < |buf| then start + limit else |buf|;
      return Window(buf[start..end], end < |buf|);
    }

    method Stats() returns (seqNo: nat, buffered: nat, diverged: nat)
      requires Valid()
      ensures seqNo == |log|
      ensures buffered == if |log| < MAX_BUFFERED then |log| else MAX_BUFFERED
      ensures diverged == |set k | 0 <= k < |log| :: log[k].product|
    {
      OverlayKeys(log);
      return nextSeq - 1, |buf|, |deltas|;
    }

    method SetStatus(s: Status)
      requires Valid()
      modifies this`status
      ensures Valid() && status == s
    {
      status := s;
    }
  }
}
