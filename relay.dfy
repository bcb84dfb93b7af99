/** The fan-out publisher: a list of subscriber queues, each owned by one
    open connection, and a publish operation that puts a message into every
    one of them. */
module Relay {

  /** A subscriber's unbounded FIFO queue of messages. */
  class Queue {
    var items: seq<string>

    constructor ()
      ensures items == []
    {
      items := [];
    }
  }

  /** `n` copies of `msg`. */
  function Repeat(msg: string, n: nat): (r: seq<string>)
    ensures |r| == n && forall i :: 0 <= i < n ==> r[i] == msg
  {
    seq(n, _ => msg)
  }

  /** No queue is subscribed twice. */
  predicate Distinct(qs: seq<Queue>) {
    forall i, j :: 0 <= i < j < |qs| ==> qs[i] != qs[j]
  }

  /** In a list without repetitions each member occurs exactly once. */
  lemma {:induction false} DistinctOnce(qs: seq<Queue>, q: Queue)
    requires Distinct(qs) && q in qs
    ensures multiset(qs)[q] == 1
  {
    var last := qs[|qs| - 1];
    var init := qs[..|qs| - 1];
    assert qs == init + [last];
    assert Distinct(init);
    if q == last {
      assert q !in init by {
        forall i | 0 <= i < |init| ensures init[i] != q {
          assert init[i] == qs[i];
        }
      }
    } else {
      assert q in init;
      DistinctOnce(init, q);
    }
  }

  /** One more copy of `msg` is one appended. */
  lemma RepeatOneMore(msg: string, n: nat)
    ensures Repeat(msg, n + 1) == Repeat(msg, n) + [msg]
  {
  }

  class Listener {
    var subscribers: seq<Queue>

    constructor ()
      ensures subscribers == []
    {
      subscribers := [];
    }

    /** The queues currently subscribed. */
    function Queues(): set<Queue>
      reads this
    {
      set q | q in subscribers
    }

    /** Registers a connection's queue; a queue new to the list keeps it
        free of repetitions. */
    method Subscribe(q: Queue)
      modifies this
      ensures subscribers == old(subscribers) + [q]
      ensures Distinct(old(subscribers)) && q !in old(subscribers) ==> Distinct(subscribers)
    {
      subscribers := subscribers + [q];
    }

    /** Puts `msg` at the end of every subscribed queue, once for each time
        the queue occurs in the list; the list itself is unchanged. */
    method Publish(msg: string)
      modifies Queues()
      ensures forall q :: q in subscribers ==> q.items == old(q.items) + Repeat(msg, multiset(subscribers)[q])
      ensures Distinct(subscribers) ==> forall q :: q in subscribers ==> q.items == old(q.items) + [msg]
    {
      var i := 0;
      while i < |subscribers|
        invariant 0 <= i <= |subscribers|
        invariant forall q :: q in subscribers ==>
          q.items == old(q.items) + Repeat(msg, multiset(subscribers[..i])[q])
      {
        var q := subscribers[i];
        assert subscribers[..i + 1] == subscribers[..i] + [q];
        RepeatOneMore(msg, multiset(subscribers[..i])[q]);
        q.items := q.items + [msg];
        i := i + 1;
      }
      assert subscribers[..i] == subscribers;
      if Distinct(subscribers) {
        forall q | q in subscribers ensures multiset(subscribers)[q] == 1 {
          DistinctOnce(subscribers, q);
        }
      }
    }
  }
}
