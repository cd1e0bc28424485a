/** One turn of a worker's polling loop (internal/ingest/worker.go:44-131, 210-220). */
module WorkerLoop {
  import opened Wrappers
  import opened CursorCodec

  /** What the cursor needs of a 200 page: a catalog page, or a page of the change feed. */
  datatype Body = Listed(next: Option<nat>, asOf: nat) | Replayed(upto: nat, empty: bool, hasMore: bool)

  datatype Reply = Failed | Expired | Served(epoch: nat, body: Body)

  datatype StepError = GoneError | OtherError

  /** Whether a page may be processed at all, and the position pinned by a first catalog page. */
  function Receive(cs: CursorState, epoch: nat, body: Body): Result<CursorState, StepError> {
    if body.Listed? && cs.catCursor == 0 then Ok(cs.(epoch := epoch, seqNo := body.asOf))
    else if epoch != cs.epoch then Err(GoneError)
    else Ok(cs)
  }

  /** The position after the page's items have been processed and their history is durable. */
  function Advance(cs: CursorState, body: Body): CursorState {
    match body
    case Listed(None, _) => cs.(phase := Offers, catCursor := 0)
    case Listed(Some(n), _) => cs.(catCursor := n)
    case Replayed(upto, _, _) => cs.(seqNo := upto)
  }

  /** The text stored after a save attempt: a failed save is only logged. */
  function Saved(previous: string, cs: CursorState, saveOk: bool): string {
    if saveOk then Encode(cs) else previous
  }

  datatype Position = Position(cs: CursorState, saved: string)

  /** A resync forgets the position, in memory and, if the save succeeds, on disk. */
  function Resync(saved: string, saveOk: bool): Position {
    Position(FRESH, Saved(saved, FRESH, saveOk))
  }

  /** The whole turn: what a reply, the fate of its items and the fate of the save do to the position. */
  function Turn(p: Position, reply: Reply, processed: bool, saveOk: bool): Position
    requires reply.Served? ==> (p.cs.phase == Catalog <==> reply.body.Listed?)
  {
    match reply
    case Failed => p
    case Expired => Resync(p.saved, saveOk)
    case Served(epoch, body) =>
      match Receive(p.cs, epoch, body)
      case Err(_) => Resync(p.saved, saveOk)
      case Ok(cs) =>
        if body.Replayed? && body.empty then p
        else if !processed then p.(cs := cs)
        else Position(Advance(cs, body), Saved(p.saved, Advance(cs, body), saveOk))
  }

  /** The position is unusable: aged out, or of another instance. A first catalog page pins its own. */
  predicate Refused(cs: CursorState, reply: Reply) {
    reply.Expired? || (reply.Served? && reply.epoch != cs.epoch && !(cs.phase == Catalog && cs.catCursor == 0))
  }

  /** There is a page whose items are to be processed. */
  predicate HasItems(cs: CursorState, reply: Reply) {
    reply.Served? && !Refused(cs, reply) && !(reply.body.Replayed? && reply.body.empty)
  }

  class Worker {
    var cs: CursorState
    // The row of ingest_cursors for this retailer.
    var saved: string

    function Here(): Position
      reads this
    {
      Position(cs, saved)
    }

    /** Resumes from the stored text; an unreadable row counts as no text at all. */
    constructor (stored: string, loadOk: bool)
      ensures Here() == Position(if loadOk then Parse(stored) else FRESH, stored)
    {
      cs := Parse(if loadOk then stored else "");
      saved := stored;
      new;
      ForeignTextStartsFresh("");
    }

    method SaveCursor(saveOk: bool)
      modifies this`saved
      ensures saved == Saved(old(saved), cs, saveOk)
      ensures saveOk && cs.phase == Catalog ==>
        saved == "catalog" + ":" + Decimal(cs.epoch) + ":" + SignedDecimal(cs.catCursor) + ":" + Decimal(cs.seqNo)
      ensures saveOk && cs.phase == Offers ==> saved == "offers" + ":" + Decimal(cs.epoch) + ":" + Decimal(cs.seqNo)
      ensures saveOk && Restorable(cs) ==> Parse(saved) == cs
      ensures !saveOk ==> saved == old(saved)
    {
      EncodeText(cs);
      if Restorable(cs) {
        RoundTrip(cs);
      }
      var parts: seq<string>;
      if cs.phase == Catalog {
        parts := ["catalog", Decimal(cs.epoch), SignedDecimal(cs.catCursor), Decimal(cs.seqNo)];
      } else {
        parts := ["offers", Decimal(cs.epoch), Decimal(cs.seqNo)];
      }
      if saveOk {
        saved := Join(parts);
      }
    }

    method CatalogStep(reply: Reply, processed: bool, saveOk: bool) returns (err: Option<StepError>)
      requires reply.Served? ==> reply.body.Listed?
      requires cs.phase == Catalog
      modifies this
      ensures err != Some(GoneError) ==> Here() == Turn(old(Here()), reply, processed, saveOk)
      ensures err == Some(GoneError) ==> Resync(saved, saveOk) == Turn(old(Here()), reply, processed, saveOk)
      ensures err == Some(GoneError) <==> Refused(old(cs), reply)
      ensures err == None <==> HasItems(old(cs), reply) && processed
      ensures err == None && saveOk && Restorable(cs) ==> Parse(saved) == cs
      ensures err != None || !saveOk ==> saved == old(saved)
    {
      match reply
      case Failed => return Some(OtherError);
      case Expired => return Some(GoneError);
      case Served(epoch, body) =>
        if cs.catCursor == 0 {
          cs := cs.(epoch := epoch);
          cs := cs.(seqNo := body.asOf);
        } else if epoch != cs.epoch {
          return Some(GoneError);
        }
        if !processed {
          return Some(OtherError);
        }
        if body.next == None {
          cs := cs.(phase := Offers, catCursor := 0);
        } else {
          cs := cs.(catCursor := body.next.value);
        }
        SaveCursor(saveOk);
        return None;
    }

    method OffersStep(reply: Reply, processed: bool, saveOk: bool) returns (idle: bool, err: Option<StepError>)
      requires reply.Served? ==> reply.body.Replayed?
      requires cs.phase == Offers
      modifies this
      ensures err != Some(GoneError) ==> Here() == Turn(old(Here()), reply, processed, saveOk)
      ensures err == Some(GoneError) ==> Resync(saved, saveOk) == Turn(old(Here()), reply, processed, saveOk)
      ensures err == Some(GoneError) <==> Refused(old(cs), reply)
      ensures err == None <==> reply.Served? && !Refused(old(cs), reply) && (reply.body.empty || processed)
      ensures err == None && !reply.body.empty && saveOk && Restorable(cs) ==> Parse(saved) == cs
      ensures err != None || reply.body.empty || !saveOk ==> saved == old(saved)
      ensures idle <==> err == None && reply.Served? && (reply.body.empty || !reply.body.hasMore)
    {
      match reply
      case Failed => return false, Some(OtherError);
      case Expired => return false, Some(GoneError);
      case Served(epoch, body) =>
        if epoch != cs.epoch {
          return false, Some(GoneError);
        }
        if body.empty {
          return true, None;
        }
        if !processed {
          return false, Some(OtherError);
        }
        cs := cs.(seqNo := body.upto);
        SaveCursor(saveOk);
        return !body.hasMore, None;
    }

    /**
     The body of the Run loop: dispatch on the phase, and start over when the position
     is unusable. Only a processed page moves the position past its items, and a
     successful save makes the stored text stand for exactly that position.
     */
    method RunOnce(reply: Reply, processed: bool, saveOk: bool)
      requires reply.Served? ==> (cs.phase == Catalog <==> reply.body.Listed?)
      modifies this
      ensures Here() == Turn(old(Here()), reply, processed, saveOk)
      ensures Refused(old(cs), reply) ==> cs == CursorState(Catalog, 0, 0, 0) && (saveOk ==> Parse(saved) == cs)
      ensures HasItems(old(cs), reply) && processed ==> (
        && (saveOk && Restorable(cs) ==> Parse(saved) == cs)
        && (reply.body.Replayed? ==> cs == old(cs).(seqNo := reply.body.upto))
        && (reply.body.Listed? ==>
              && cs.epoch == reply.epoch && cs.seqNo == (if old(cs).catCursor == 0 then reply.body.asOf else old(cs).seqNo)
              && (reply.body.next == None ==> cs.phase == Offers && cs.catCursor == 0)
              && (reply.body.next != None ==> cs.phase == Catalog && cs.catCursor == reply.body.next.value)))
      ensures HasItems(old(cs), reply) && !processed ==> (
        && saved == old(saved)
        && (if reply.body.Listed? && old(cs).catCursor == 0 then cs == old(cs).(epoch := reply.epoch, seqNo := reply.body.asOf)
            else cs == old(cs)))
      ensures !Refused(old(cs), reply) && !HasItems(old(cs), reply) ==> cs == old(cs) && saved == old(saved)
      ensures !saveOk ==> saved == old(saved)
    {
      var err: Option<StepError>;
      if cs.phase == Catalog {
        err := CatalogStep(reply, processed, saveOk);
      } else {
        var idle;
        idle, err := OffersStep(reply, processed, saveOk);
      }
      if err == Some(GoneError) {
        cs := FRESH;
        SaveCursor(saveOk);
      }
    }
  }
}
