/**
 * The reconciliation engine (url-projector/services/link_service.go): each
 * change event becomes an upsert, a delete or nothing against the document
 * store, and no failure ever reaches the caller.
 */
module LinkService {
  import opened Wrappers
  import opened LinkModel
  import opened Envelope

  /** Outcomes the store port can report besides success. */
  datatype StoreError = NotFound | Unavailable

  /**
   * The document store port: documents keyed by `_id`. `available` stands for
   * whether the backing database answers; when it does not, every call fails
   * with `Unavailable` and changes nothing.
   */
  class LinkRepository {
    var docs: map<int, Link>
    var available: bool

    constructor (initial: map<int, Link>, up: bool)
      ensures docs == initial && available == up
    {
      docs := initial;
      available := up;
    }

    /** Insert or fully replace the document at `link.id`. */
    method Upsert(link: Link) returns (r: Result<Link, StoreError>)
      modifies this`docs
      ensures available ==> r == Success(link) && docs == old(docs)[link.id := link]
      ensures !available ==> r == Failure(Unavailable) && docs == old(docs)
    {
      if available {
        docs := docs[link.id := link];
        r := Success(link);
      } else {
        r := Failure(Unavailable);
      }
    }

    /** Remove the document at `id`, reporting `NotFound` when there is none. */
    method Delete(id: int) returns (r: Result<(), StoreError>)
      modifies this`docs
      ensures !available ==> r == Failure(Unavailable) && docs == old(docs)
      ensures available && id !in old(docs) ==> r == Failure(NotFound) && docs == old(docs)
      ensures available && id in old(docs) ==> r == Success(()) && docs == old(docs) - {id}
    {
      if !available {
        r := Failure(Unavailable);
      } else if id in docs {
        docs := docs - {id};
        r := Success(());
      } else {
        r := Failure(NotFound);
      }
    }
  }

  /** The line the service logs for an event; the only thing it produces besides the store change. */
  datatype LogEntry =
    | Upserted(id: int)
    | UpsertFailed(id: int)
    | Undecodable(err: DecodeError)
    | Deleted(id: int)
    | AlreadyDeleted(id: int)
    | DeleteFailed(id: int)
    | DeleteWithoutId
    | NoAction(op: string)

  // ---------------------------------------------------------------------------
  // Specification of one event's effect

  /** The store call an event leads to, if any. */
  datatype Command = UpsertLink(link: Link) | DeleteId(id: int) | Skip

  /** The op codes that upsert: create, update and snapshot read. */
  predicate IsUpsertOp(op: string) {
    op == "c" || op == "u" || op == "r"
  }

  /** The op switch: `c`, `u`, `r` upsert the decoded `after`; `d` deletes a float64 `before.id`. */
  function Plan(e: Envelope): (r: Command)
    ensures r.UpsertLink? <==> IsUpsertOp(e.op) && GetLinkFromAfter(e.after).Success?
    ensures r.UpsertLink? ==> GetLinkFromAfter(e.after) == Success(r.link)
    ensures r.DeleteId? <==> e.op == "d" && Lookup(e.before, "id").Float?
    ensures r.DeleteId? ==> Lookup(e.before, "id") == Float(r.id)
  {
    if e.op == "c" || e.op == "u" || e.op == "r" then
      match GetLinkFromAfter(e.after)
      case Success(link) => UpsertLink(link)
      case Failure(_) => Skip
    else if e.op == "d" then
      match Lookup(e.before, "id")
      case Float(n) => DeleteId(n)
      case _ => Skip
    else Skip
  }

  /** The store contents after one event, given whether the store answers. */
  function Reconcile(docs: map<int, Link>, available: bool, e: Envelope): map<int, Link> {
    if !available then docs
    else
      match Plan(e)
      case UpsertLink(link) => docs[link.id := link]
      case DeleteId(id) => docs - {id}
      case Skip => docs
  }

  /** The log line for one event. */
  function Report(docs: map<int, Link>, available: bool, e: Envelope): LogEntry {
    if e.op == "c" || e.op == "u" || e.op == "r" then
      match GetLinkFromAfter(e.after)
      case Failure(err) => Undecodable(err)
      case Success(link) => if available then Upserted(link.id) else UpsertFailed(link.id)
    else if e.op == "d" then
      match Lookup(e.before, "id")
      case Float(n) =>
        if !available then DeleteFailed(n) else if n in docs then Deleted(n) else AlreadyDeleted(n)
      case _ => DeleteWithoutId
    else NoAction(e.op)
  }

  /** The store contents after a sequence of events, applied in order. */
  function Replay(docs: map<int, Link>, available: bool, events: seq<Envelope>): map<int, Link>
    decreases |events|
  {
    if events == [] then docs
    else Replay(Reconcile(docs, available, events[0]), available, events[1..])
  }

  // ---------------------------------------------------------------------------
  // The service

  class LinkService {
    const repo: LinkRepository

    constructor (r: LinkRepository)
      ensures repo == r
    {
      repo := r;
    }

    /** Dispatches on the op code; never reports failure to the caller, only logs it. */
    method ApplyLogic(e: Envelope) returns (logged: LogEntry)
      modifies repo`docs
      ensures repo.docs == Reconcile(old(repo.docs), repo.available, e)
      ensures logged == Report(old(repo.docs), repo.available, e)
    {
      var op := e.op;
      if op == "c" || op == "u" || op == "r" {
        logged := Upsert(e);
      } else if op == "d" {
        var rawId := Lookup(e.before, "id");
        if rawId.Float? {
          logged := Delete(rawId.n);
        } else {
          logged := DeleteWithoutId;
        }
      } else {
        logged := NoAction(op);
      }
    }

    /**
     * Decodes `after` and upserts it. A decode failure is logged and makes no
     * store call; a store failure is logged and swallowed.
     */
    method Upsert(e: Envelope) returns (logged: LogEntry)
      requires e.op == "c" || e.op == "u" || e.op == "r"
      modifies repo`docs
      ensures repo.docs == Reconcile(old(repo.docs), repo.available, e)
      ensures logged == Report(old(repo.docs), repo.available, e)
    {
      var decoded := GetLinkFromAfter(e.after);
      if decoded.Failure? {
        return Undecodable(decoded.error);
      }
      var link := decoded.value;
      var r := repo.Upsert(link);
      if r.Failure? {
        return UpsertFailed(link.id);
      }
      logged := Upserted(link.id);
    }

    /** Deletes `id`; an absent document counts as already deleted, other failures are logged. */
    method Delete(id: int) returns (logged: LogEntry)
      modifies repo`docs
      ensures repo.docs == if repo.available then old(repo.docs) - {id} else old(repo.docs)
      ensures logged == if !repo.available then DeleteFailed(id)
                        else if id in old(repo.docs) then Deleted(id) else AlreadyDeleted(id)
    {
      var r := repo.Delete(id);
      if r.Failure? {
        if r.error == NotFound {
          return AlreadyDeleted(id);
        }
        return DeleteFailed(id);
      }
      logged := Deleted(id);
    }
  }

  // ---------------------------------------------------------------------------
  // Properties of the reconciliation

  /** Create, update and snapshot-read events with the same `after` image have the same effect. */
  lemma UpsertOpsAgree(e1: Envelope, e2: Envelope, docs: map<int, Link>, available: bool)
    requires IsUpsertOp(e1.op) && IsUpsertOp(e2.op) && e1.after == e2.after
    ensures Reconcile(docs, available, e1) == Reconcile(docs, available, e2)
  {
  }

  /**
   * An upsert event whose image decodes leaves exactly that record at its id
   * (full replace) and every other document as it was.
   */
  lemma UpsertStoresDecodedImage(docs: map<int, Link>, e: Envelope)
    requires IsUpsertOp(e.op) && GetLinkFromAfter(e.after).Success?
    ensures var link := GetLinkFromAfter(e.after).value;
      var out := Reconcile(docs, true, e);
      && out.Keys == docs.Keys + {link.id}
      && out[link.id] == link
      && forall k :: k in docs && k != link.id ==> out[k] == docs[k]
  {
  }

  /** An upsert event whose image does not decode changes nothing. */
  lemma UndecodableUpsertIsNoOp(docs: map<int, Link>, available: bool, e: Envelope)
    requires IsUpsertOp(e.op) && GetLinkFromAfter(e.after).Failure?
    ensures Reconcile(docs, available, e) == docs
  {
  }

  /** A delete with a numeric (float64) `before.id` removes exactly that key. */
  lemma DeleteRemovesExactlyId(docs: map<int, Link>, e: Envelope, n: int)
    requires e.op == "d" && Lookup(e.before, "id") == Float(n)
    ensures var out := Reconcile(docs, true, e);
      && out.Keys == docs.Keys - {n}
      && forall k :: k in out ==> out[k] == docs[k]
  {
  }

  /** A delete whose `before.id` is absent or not a float64 (an int64 included) changes nothing. */
  lemma DeleteWithoutFloatIdIsNoOp(docs: map<int, Link>, available: bool, e: Envelope)
    requires e.op == "d" && !Lookup(e.before, "id").Float?
    ensures Reconcile(docs, available, e) == docs
    ensures Report(docs, available, e) == DeleteWithoutId
  {
  }

  /** Deleting an absent id is not an error: it is logged as already deleted and changes nothing. */
  lemma DeleteOfAbsentIdIsNoOp(docs: map<int, Link>, e: Envelope, n: int)
    requires e.op == "d" && Lookup(e.before, "id") == Float(n) && n !in docs
    ensures Reconcile(docs, true, e) == docs
    ensures Report(docs, true, e) == AlreadyDeleted(n)
  {
  }

  /** An unrecognised op code changes nothing and is logged as such. */
  lemma UnknownOpIsNoOp(docs: map<int, Link>, available: bool, e: Envelope)
    requires !IsUpsertOp(e.op) && e.op != "d"
    ensures Reconcile(docs, available, e) == docs
    ensures Report(docs, available, e) == NoAction(e.op)
  {
  }

  /** Every event is idempotent: applying it twice is the same as applying it once. */
  lemma ReconcileIdempotent(docs: map<int, Link>, available: bool, e: Envelope)
    ensures Reconcile(Reconcile(docs, available, e), available, e) == Reconcile(docs, available, e)
  {
  }

  /** Replaying two batches in turn is replaying their concatenation. */
  lemma {:induction false} ReplayAppend(docs: map<int, Link>, available: bool, xs: seq<Envelope>, ys: seq<Envelope>)
    ensures Replay(docs, available, xs + ys) == Replay(Replay(docs, available, xs), available, ys)
    decreases |xs|
  {
    if xs == [] {
      assert xs + ys == ys;
    } else {
      assert (xs + ys)[0] == xs[0] && (xs + ys)[1..] == xs[1..] + ys;
      ReplayAppend(Reconcile(docs, available, xs[0]), available, xs[1..], ys);
    }
  }

  /**
   * Redelivery of an event right after itself, as at-least-once delivery may
   * do across a reconnect, leaves the same store as a single delivery.
   */
  lemma RedeliveryIsHarmless(docs: map<int, Link>, available: bool, pre: seq<Envelope>, e: Envelope, post: seq<Envelope>)
    ensures Replay(docs, available, pre + [e, e] + post) == Replay(docs, available, pre + [e] + post)
  {
    var mid := Replay(docs, available, pre);
    ReplayAppend(docs, available, pre, [e, e] + post);
    ReplayAppend(docs, available, pre, [e] + post);
    assert pre + [e, e] + post == pre + ([e, e] + post);
    assert pre + [e] + post == pre + ([e] + post);
    assert ([e, e] + post)[1..] == [e] + post;
    assert ([e] + post)[1..] == post;
    ReconcileIdempotent(mid, available, e);
  }

  /** The document at `k`, if any. */
  function At(docs: map<int, Link>, k: int): Option<Link> {
    if k in docs then Some(docs[k]) else None
  }

  /** Maps that agree at every key are equal. */
  lemma AtExtensional(m1: map<int, Link>, m2: map<int, Link>)
    requires forall k :: At(m1, k) == At(m2, k)
    ensures m1 == m2
  {
    assert m1.Keys == m2.Keys by {
      forall k ensures k in m1 <==> k in m2 {
        assert At(m1, k) == At(m2, k);
      }
    }
    forall k | k in m1 ensures m1[k] == m2[k] {
      assert At(m1, k) == At(m2, k);
    }
  }

  /**
   * What one event writes at key `k`: `None` when it leaves `k` alone,
   * `Some(None)` when it deletes `k`, `Some(Some(link))` when it stores `link` there.
   */
  function EventWrite(e: Envelope, k: int): Option<Option<Link>> {
    match Plan(e)
    case UpsertLink(link) => if link.id == k then Some(Some(link)) else None
    case DeleteId(id) => if id == k then Some(None) else None
    case Skip => None
  }

  /** The write of the last event in `events` that touches `k`, if any. */
  function LastWrite(events: seq<Envelope>, k: int): Option<Option<Link>>
    decreases |events|
  {
    if events == [] then None
    else
      var later := LastWrite(events[1..], k);
      if later.Some? then later else EventWrite(events[0], k)
  }

  /** A store that answers holds, at each key, the last write to it, or what it held before. */
  lemma {:induction false} ReplayAt(docs: map<int, Link>, events: seq<Envelope>, k: int)
    ensures At(Replay(docs, true, events), k)
      == match LastWrite(events, k) case Some(w) => w case None => At(docs, k)
    decreases |events|
  {
    if events != [] {
      ReplayAt(Reconcile(docs, true, events[0]), events[1..], k);
    }
  }

  /** A store that does not answer is left as it was by any batch. */
  lemma {:induction false} ReplayUnavailable(docs: map<int, Link>, events: seq<Envelope>)
    ensures Replay(docs, false, events) == docs
    decreases |events|
  {
    if events != [] {
      ReplayUnavailable(docs, events[1..]);
    }
  }

  /** Replaying a batch a second time changes nothing: the last write to each key is the same. */
  lemma ReplayTwice(docs: map<int, Link>, available: bool, events: seq<Envelope>)
    ensures Replay(Replay(docs, available, events), available, events) == Replay(docs, available, events)
  {
    var once := Replay(docs, available, events);
    if !available {
      ReplayUnavailable(docs, events);
      ReplayUnavailable(once, events);
    } else {
      forall k ensures At(Replay(once, true, events), k) == At(once, k) {
        ReplayAt(once, events, k);
        ReplayAt(docs, events, k);
      }
      AtExtensional(Replay(once, true, events), once);
    }
  }

  /**
   * Redelivery of a whole batch after itself, as a consumer that reconnects
   * before its offsets are committed may do, leaves the same store as a
   * single delivery.
   */
  lemma BatchRedeliveryIsHarmless(docs: map<int, Link>, available: bool, xs: seq<Envelope>, ys: seq<Envelope>)
    ensures Replay(docs, available, xs + ys + ys) == Replay(docs, available, xs + ys)
  {
    ReplayAppend(docs, available, xs + ys, ys);
    ReplayAppend(docs, available, xs, ys);
    ReplayTwice(Replay(docs, available, xs), available, ys);
  }
}
