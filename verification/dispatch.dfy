/**
  The producer's fan-out (`register_interest`, `dispatch_message`): an
  ordered list of interested workers, each of which receives every
  dispatched message by `put_message`, once per registration.
 */
module Dispatch {
  import opened Worker
  import opened Seqs

  type WorkerId = nat

  /** The producer's registry, and the workers it can reach. */
  datatype Hub = Hub(interested: seq<WorkerId>, workers: map<WorkerId, Worker>)

  /** Every registered worker exists. */
  predicate Valid(h: Hub) {
    forall i :: 0 <= i < |h.interested| ==> h.interested[i] in h.workers
  }

  /** `register_interest`: append to the list (a second registration is kept too). */
  function Register(h: Hub, id: WorkerId): (r: Hub)
    requires Valid(h) && id in h.workers
    ensures Valid(r) && r.workers == h.workers
    ensures multiset(r.interested)[id] == multiset(h.interested)[id] + 1
    ensures forall other :: other != id ==> multiset(r.interested)[other] == multiset(h.interested)[other]
  {
    Hub(h.interested + [id], h.workers)
  }

  /** The `for thread in self._interested_threads` loop from position `ids` on. */
  function DispatchTo(ids: seq<WorkerId>, workers: map<WorkerId, Worker>, item: Item): (r: map<WorkerId, Worker>)
    requires forall i :: 0 <= i < |ids| ==> ids[i] in workers
    ensures r.Keys == workers.Keys
    ensures forall w :: w in workers ==>
      r[w] == workers[w].(inbox := workers[w].inbox + Repeat(item, multiset(ids)[w]))
    decreases |ids|
  {
    if |ids| == 0 then workers
    else
      var first := ids[0];
      var next := workers[first := PutMessage(workers[first], item)];
      var r := DispatchTo(ids[1..], next, item);
      DispatchStep(ids, workers, next, item);
      r
  }

  /** Putting into the first worker, then dispatching the rest, is dispatching all. */
  lemma DispatchStep(ids: seq<WorkerId>, workers: map<WorkerId, Worker>, next: map<WorkerId, Worker>, item: Item)
    requires |ids| > 0 && ids[0] in workers
    requires next == workers[ids[0] := PutMessage(workers[ids[0]], item)]
    ensures forall w :: w in workers ==>
      next[w].(inbox := next[w].inbox + Repeat(item, multiset(ids[1..])[w]))
      == workers[w].(inbox := workers[w].inbox + Repeat(item, multiset(ids)[w]))
  {
    assert ids == [ids[0]] + ids[1..];
    forall w | w in workers
      ensures next[w].(inbox := next[w].inbox + Repeat(item, multiset(ids[1..])[w]))
        == workers[w].(inbox := workers[w].inbox + Repeat(item, multiset(ids)[w]))
    {
      var k := multiset(ids[1..])[w];
      if w == ids[0] {
        assert multiset(ids)[w] == k + 1;
        assert workers[w].inbox + [item] + Repeat(item, k) == workers[w].inbox + Repeat(item, k + 1);
      } else {
        assert multiset(ids)[w] == k;
      }
    }
  }

  /** `dispatch_message`: put the message into every registered worker's queue, in registration order. */
  function DispatchMessage(h: Hub, item: Item): (r: Hub)
    requires Valid(h)
    ensures Valid(r) && r.interested == h.interested && r.workers.Keys == h.workers.Keys
    ensures forall w :: w in h.workers ==>
      r.workers[w].role == h.workers[w].role && r.workers[w].alive == h.workers[w].alive
      && r.workers[w].inbox == h.workers[w].inbox + Repeat(item, multiset(h.interested)[w])
  {
    Hub(h.interested, DispatchTo(h.interested, h.workers, item))
  }

  /** Registered once: the message arrives once, at the back. Not registered: nothing arrives. */
  lemma ReceivedOnceIfRegistered(h: Hub, item: Item, w: WorkerId)
    requires Valid(h) && w in h.workers && multiset(h.interested)[w] <= 1
    ensures w in h.interested ==> DispatchMessage(h, item).workers[w].inbox == h.workers[w].inbox + [item]
    ensures w !in h.interested ==> DispatchMessage(h, item).workers[w] == h.workers[w]
  {
    if w in h.interested {
      assert multiset(h.interested)[w] == 1;
      assert Repeat(item, 1) == [item];
    } else {
      assert multiset(h.interested)[w] == 0;
      assert h.workers[w].inbox + Repeat(item, 0) == h.workers[w].inbox;
    }
  }

  /** Every worker sees dispatched messages in dispatch order. */
  lemma DispatchOrder(h: Hub, a: Item, b: Item, w: WorkerId)
    requires Valid(h) && w in h.workers && multiset(h.interested)[w] == 1
    ensures DispatchMessage(DispatchMessage(h, a), b).workers[w].inbox == h.workers[w].inbox + [a, b]
  {
    assert w in multiset(h.interested);
    ReceivedOnceIfRegistered(h, a, w);
    var h1 := DispatchMessage(h, a);
    assert h1.interested == h.interested;
    ReceivedOnceIfRegistered(h1, b, w);
    AppendAssoc(h.workers[w].inbox, [a], [b]);
  }

  /** A worker registered after a dispatch does not receive that message. */
  lemma LateRegistrationMissesEarlier(h: Hub, item: Item, w: WorkerId)
    requires Valid(h) && w in h.workers && w !in h.interested
    ensures Register(DispatchMessage(h, item), w).workers[w] == h.workers[w]
  {
    ReceivedOnceIfRegistered(h, item, w);
  }
}
