/** The writer as the source has it: fields updated under one mutex, one method per critical section. */
module CHWriterClass {
  import opened Wrappers
  import opened HistoryWriter

  /** The last n of these rows, or all of them. */
  function Latest<T>(n: nat, rows: seq<T>): (r: seq<T>)
    ensures |r| == (if |rows| < n then |rows| else n) && r == rows[|rows| - |r|..]
  {
    if |rows| <= n then rows else rows[|rows| - n..]
  }

  class CHWriter<E> {
    const flushSize: nat
    const maxPending: nat
    var rows: seq<E>
    // The local `rows` of the flush in progress; empty when none is.
    var inFlight: seq<E>
    var enqSeq: nat
    var flushedSeq: nat
    // Generation of the notify channel: a waiter holding an older one finds it closed.
    var notify: nat
    var kick: bool
    ghost var model: Writer<E>

    ghost predicate Mirrors()
      reads this
    {
      && rows == Untag(model.rows) && inFlight == Untag(model.flight)
      && enqSeq == model.enqSeq && flushedSeq == model.flushedSeq && notify == model.gen
      && maxPending == model.maxPending
    }

    ghost predicate Valid()
      reads this
    {
      Mirrors() && Shape(model)
    }

    constructor (flushSize: nat, maxPending: nat)
      ensures Valid() && model == Empty(maxPending) && this.flushSize == flushSize && !kick
    {
      this.flushSize, this.maxPending := flushSize, maxPending;
      rows, inFlight, enqSeq, flushedSeq, notify, kick := [], [], 0, 0, 0, false;
      model := Empty(maxPending);
    }

    method AdvanceLocked()
      modifies this`notify
      ensures notify == old(notify) + 1
    {
      notify := notify + 1;
    }

    method DropOverflowLocked()
      requires Mirrors()
      modifies this`rows, this`flushedSeq, this`notify, this`model
      ensures Mirrors() && model == DropOverflow(old(model))
      ensures rows == Latest(maxPending, old(rows)) && flushedSeq == old(flushedSeq) + |old(rows)| - |rows|
      ensures notify == old(notify) + (if |rows| < |old(rows)| then 1 else 0)
    {
      var over := |rows| - maxPending;
      model := DropOverflow(model);
      if over <= 0 {
        return;
      }
      rows := rows[over..];
      flushedSeq := flushedSeq + over;
      AdvanceLocked();
    }

    /** Appends the events and enforces the cap. */
    method EnqueueLocked(events: seq<E>)
      requires Valid()
      modifies this`rows, this`enqSeq, this`flushedSeq, this`notify, this`model
      ensures Valid() && model == Enqueue(old(model), events)
      ensures enqSeq == old(enqSeq) + |events|
      ensures rows == Latest(maxPending, old(rows) + events)
      ensures flushedSeq == old(flushedSeq) + |old(rows)| + |events| - |rows|
      ensures notify == old(notify) + (if |old(rows)| + |events| > maxPending then 1 else 0)
    {
      EnqueueKeepsShape(model, events);
      AppendUntags(model, events);
      model := Append(model, events);
      rows := rows + events;
      enqSeq := enqSeq + |events|;
      DropOverflowLocked();
    }

    /** Buffers the events and returns the watermark to wait for; a full batch asks for an early flush. */
    method Add(events: seq<E>) returns (wm: nat)
      requires Valid()
      modifies this
      ensures Valid() && model == Enqueue(old(model), events)
      ensures wm == enqSeq == old(enqSeq) + |events|
      ensures rows == Latest(maxPending, old(rows) + events) && inFlight == old(inFlight)
      ensures flushedSeq == old(flushedSeq) + |old(rows)| + |events| - |rows|
      ensures notify == old(notify) + (if |old(rows)| + |events| > maxPending then 1 else 0)
      ensures kick == (old(kick) || |rows| >= flushSize)
    {
      EnqueueLocked(events);
      wm := enqSeq;
      if |rows| >= flushSize {
        KickFlush();
      }
    }

    /** A send on a channel of capacity one that never blocks. */
    method KickFlush()
      modifies this`kick
      ensures kick
    {
      kick := true;
    }

    /** One pass of the WaitFlushed loop: released, or the channel generation to wait on, with a flush asked for. */
    method CheckFlushed(wm: nat) returns (waitOn: Option<nat>)
      requires Valid()
      modifies this`kick
      ensures Valid()
      ensures waitOn == if flushedSeq >= wm then None else Some(notify)
      ensures kick == (old(kick) || flushedSeq < wm)
    {
      if flushedSeq >= wm {
        return None;
      }
      var ch := notify;
      KickFlush();
      return Some(ch);
    }

    method FlushBegin()
      requires Valid() && inFlight == []
      modifies this
      ensures Valid() && model == TakeOff(old(model)) && rows == [] && inFlight == old(rows) && kick == old(kick)
      ensures enqSeq == old(enqSeq) && flushedSeq == old(flushedSeq) && notify == old(notify)
    {
      TakeOffKeepsShape(model);
      assert model.flight == [];
      model := TakeOff(model);
      inFlight := rows;
      rows := [];
    }

    /** The rest of a flush, after the insert has returned. */
    method FlushEnd(insertOk: bool)
      requires Valid() && inFlight != []
      modifies this
      ensures Valid() && inFlight == [] && kick == old(kick)
      ensures model == if insertOk then Land(old(model)) else Requeue(old(model))
      ensures enqSeq == old(enqSeq)
      ensures insertOk ==> rows == old(rows) && flushedSeq == old(flushedSeq) + |old(inFlight)|
      ensures !insertOk ==>
        rows == Latest(maxPending, old(inFlight) + old(rows)) && flushedSeq == old(flushedSeq) + |old(inFlight)| + |old(rows)| - |rows|
      ensures notify == old(notify) + (if insertOk || |old(inFlight)| + |old(rows)| > maxPending then 1 else 0)
    {
      LandKeepsShape(model);
      RequeueKeepsShape(model);
      assert model.flight != [];
      if !insertOk {
        UntagJoins(model.flight, model.rows, [], 0);
        model := Restore(model);
        rows := inFlight + rows;
        inFlight := [];
        DropOverflowLocked();
        return;
      }
      model := Land(model);
      flushedSeq := flushedSeq + |inFlight|;
      inFlight := [];
      AdvanceLocked();
    }

    method Pending() returns (n: nat)
      requires Valid()
      ensures n == |model.rows|
    {
      return |rows|;
    }
  }
}
