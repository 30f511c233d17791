/** The ordered fan-out submitter of server/src/submitter.rs: a batch of due
    transactions is handed, one transaction at a time, to the channel of
    every endpoint, and the next transaction is taken from the batch only
    once every channel has accepted the current one.

    The source's `Submitter` is a future polled by an executor; here one call
    of `Poll` runs it to completion, the sends of one `join_all` happen one
    after the other in sink order, and every send either succeeds at once or
    fails because the endpoint's worker has gone. */
module Submission {
  import opened Types

  /** The sending halves of the channels to all endpoints, one per configured
      transport, shared by every submitter. `queues[i]` is everything the
      worker of endpoint i has been handed, in order; `open[i]` turns false
      once that worker has dropped the receiving half, after which every send
      to it fails. */
  class Sinks {
    var queues: seq<seq<Transaction>>
    var open: seq<bool>

    ghost predicate Valid()
      reads this
    {
      |queues| == |open|
    }

    /** `n` fresh channels, all empty and open. */
    constructor (n: nat)
      ensures Valid() && |queues| == n
      ensures forall i :: 0 <= i < n ==> queues[i] == [] && open[i]
    {
      queues := seq(n, _ => []);
      open := seq(n, _ => true);
    }

    /** Sending `tx` on the channel of endpoint i. */
    method Send(i: nat, tx: Transaction) returns (ok: bool)
      requires Valid() && i < |queues|
      modifies this
      ensures Valid() && open == old(open)
      ensures ok == open[i]
      ensures queues == if ok then old(queues)[i := old(queues)[i] + [tx]] else old(queues)
    {
      ok := open[i];
      if ok {
        queues := queues[i := queues[i] + [tx]];
      }
    }
  }

  /** How many sinks a fan-out reaches: those before the first closed one. */
  function Reach(opens: seq<bool>): (k: nat)
    ensures k <= |opens|
    ensures forall i :: 0 <= i < k ==> opens[i]
    ensures k < |opens| ==> !opens[k]
  {
    if opens == [] || !opens[0] then 0 else 1 + Reach(opens[1..])
  }

  /** Every queue with `xs` appended. */
  function Extend(qs: seq<seq<Transaction>>, xs: seq<Transaction>): seq<seq<Transaction>> {
    seq(|qs|, i requires 0 <= i < |qs| => qs[i] + xs)
  }

  /** The first `k` queues with `tx` appended, the others as they were. */
  function ExtendFirst(qs: seq<seq<Transaction>>, k: nat, tx: Transaction): seq<seq<Transaction>> {
    seq(|qs|, i requires 0 <= i < |qs| => if i < k then qs[i] + [tx] else qs[i])
  }

  /** Reach is the index of the first closed sink, or the number of sinks. */
  lemma ReachAt(opens: seq<bool>, i: nat)
    requires i <= |opens| && forall j :: 0 <= j < i ==> opens[j]
    requires i < |opens| ==> !opens[i]
    ensures Reach(opens) == i
  {
  }

  lemma ExtendFirstStep(qs: seq<seq<Transaction>>, i: nat, tx: Transaction)
    requires i < |qs|
    ensures ExtendFirst(qs, i, tx)[i := qs[i] + [tx]] == ExtendFirst(qs, i + 1, tx)
  {
  }

  lemma ExtendNothing(qs: seq<seq<Transaction>>)
    ensures Extend(qs, []) == qs
  {
    assert forall i :: 0 <= i < |qs| ==> Extend(qs, [])[i] == qs[i];
  }

  lemma ExtendStep(qs: seq<seq<Transaction>>, xs: seq<Transaction>, tx: Transaction)
    ensures ExtendFirst(Extend(qs, xs), |qs|, tx) == Extend(qs, xs + [tx])
  {
    forall i | 0 <= i < |qs|
      ensures ExtendFirst(Extend(qs, xs), |qs|, tx)[i] == Extend(qs, xs + [tx])[i]
    {
      assert qs[i] + xs + [tx] == qs[i] + (xs + [tx]);
    }
  }

  lemma ExtendTwice(qs: seq<seq<Transaction>>, xs: seq<Transaction>, ys: seq<Transaction>)
    ensures Extend(Extend(qs, xs), ys) == Extend(qs, xs + ys)
  {
    forall i | 0 <= i < |qs|
      ensures Extend(Extend(qs, xs), ys)[i] == Extend(qs, xs + ys)[i]
    {
      assert qs[i] + xs + ys == qs[i] + (xs + ys);
    }
  }

  /** One accepted send: item `item` of the batch reached sink `sink`. */
  datatype Delivery = Delivery(item: nat, sink: nat)

  /** How a run of the submitter ended (Ok(Ready) or Err(()) in the source). */
  datatype Completion = Ready | Failed

  /** The sends of one complete fan-out: `item` to sinks 0 .. n-1. */
  function Row(item: nat, n: nat): seq<Delivery>
    decreases n
  {
    if n == 0 then [] else Row(item, n - 1) + [Delivery(item, n - 1)]
  }

  /** The sends of complete fan-outs of items lo .. hi-1, in that order. */
  function FanOutLog(lo: nat, hi: nat, n: nat): seq<Delivery>
    requires lo <= hi
    decreases hi
  {
    if lo == hi then [] else FanOutLog(lo, hi - 1, n) + Row(hi - 1, n)
  }

  lemma {:induction false} RowShape(item: nat, n: nat)
    ensures |Row(item, n)| == n
    ensures forall p :: 0 <= p < n ==> Row(item, n)[p] == Delivery(item, p)
    decreases n
  {
    if n > 0 {
      RowShape(item, n - 1);
    }
  }

  /** A fan-out of K items to N sinks is exactly N * K sends. */
  lemma {:induction false} FanOutLogLength(lo: nat, hi: nat, n: nat)
    requires lo <= hi
    ensures |FanOutLog(lo, hi, n)| == (hi - lo) * n
    decreases hi
  {
    if lo < hi {
      FanOutLogLength(lo, hi - 1, n);
      RowShape(hi - 1, n);
      assert FanOutLog(lo, hi, n) == FanOutLog(lo, hi - 1, n) + Row(hi - 1, n);
      MulStep(hi - 1 - lo, n);
    }
  }

  lemma MulStep(k: nat, n: nat)
    ensures (k + 1) * n == k * n + n
  {
  }

  /** Every send of the log is of an item in range to a sink in range. */
  lemma {:induction false} FanOutLogEntry(lo: nat, hi: nat, n: nat, p: nat)
    requires lo <= hi && p < |FanOutLog(lo, hi, n)|
    ensures lo <= FanOutLog(lo, hi, n)[p].item < hi && FanOutLog(lo, hi, n)[p].sink < n
    decreases hi
  {
    var prefix := FanOutLog(lo, hi - 1, n);
    assert FanOutLog(lo, hi, n) == prefix + Row(hi - 1, n);
    if p < |prefix| {
      FanOutLogEntry(lo, hi - 1, n, p);
    } else {
      RowShape(hi - 1, n);
    }
  }

  /** Item `item` reaches sink `sink` as send number (item - lo) * n + sink. */
  lemma {:induction false} FanOutLogPosition(lo: nat, hi: nat, n: nat, item: nat, sink: nat)
    requires lo <= item < hi && sink < n
    ensures (item - lo) * n + sink < |FanOutLog(lo, hi, n)|
    ensures FanOutLog(lo, hi, n)[(item - lo) * n + sink] == Delivery(item, sink)
    decreases hi
  {
    var prefix := FanOutLog(lo, hi - 1, n);
    assert FanOutLog(lo, hi, n) == prefix + Row(hi - 1, n);
    FanOutLogLength(lo, hi - 1, n);
    var k := item - lo;
    if item == hi - 1 {
      assert k * n == |prefix|;
      RowShape(hi - 1, n);
    } else {
      FanOutLogPosition(lo, hi - 1, n, item, sink);
      MulStep(k, n);
      MulMono(k + 1, hi - 1 - lo, n);
      assert k * n + sink < |prefix|;
    }
  }

  lemma {:induction false} FanOutLogContains(lo: nat, hi: nat, n: nat, item: nat, sink: nat)
    requires lo <= item < hi && sink < n
    ensures Delivery(item, sink) in FanOutLog(lo, hi, n)
    decreases hi
  {
    var prefix := FanOutLog(lo, hi - 1, n);
    var log := prefix + Row(hi - 1, n);
    assert FanOutLog(lo, hi, n) == log;
    if item == hi - 1 {
      RowShape(hi - 1, n);
      assert log[|prefix| + sink] == Delivery(item, sink);
    } else {
      FanOutLogContains(lo, hi - 1, n, item, sink);
      var q :| 0 <= q < |prefix| && prefix[q] == Delivery(item, sink);
      assert log[q] == Delivery(item, sink);
    }
  }

  lemma MulMono(a: nat, b: nat, n: nat)
    requires a <= b
    ensures a * n <= b * n
  {
  }

  /** Every send of the log is of an item in range to a sink in range, and
      every such pair is sent. */
  lemma FanOutLogComplete(lo: nat, hi: nat, n: nat)
    requires lo <= hi
    ensures forall p :: 0 <= p < |FanOutLog(lo, hi, n)| ==>
      lo <= FanOutLog(lo, hi, n)[p].item < hi && FanOutLog(lo, hi, n)[p].sink < n
    ensures forall item: nat, sink: nat ::
      lo <= item < hi && sink < n ==> Delivery(item, sink) in FanOutLog(lo, hi, n)
  {
    forall p | 0 <= p < |FanOutLog(lo, hi, n)|
      ensures lo <= FanOutLog(lo, hi, n)[p].item < hi && FanOutLog(lo, hi, n)[p].sink < n
    {
      FanOutLogEntry(lo, hi, n, p);
    }
    forall item: nat, sink: nat | lo <= item < hi && sink < n
      ensures Delivery(item, sink) in FanOutLog(lo, hi, n)
    {
      FanOutLogContains(lo, hi, n, item, sink);
    }
  }

  lemma {:induction false} FanOutLogOrderedAt(lo: nat, hi: nat, n: nat, p: nat, q: nat)
    requires lo <= hi && p < q < |FanOutLog(lo, hi, n)|
    ensures FanOutLog(lo, hi, n)[p].item <= FanOutLog(lo, hi, n)[q].item
    decreases hi
  {
    var prefix := FanOutLog(lo, hi - 1, n);
    var log := prefix + Row(hi - 1, n);
    assert FanOutLog(lo, hi, n) == log;
    if q < |prefix| {
      FanOutLogOrderedAt(lo, hi - 1, n, p, q);
      assert log[p] == prefix[p] && log[q] == prefix[q];
    } else {
      RowShape(hi - 1, n);
      assert log[q].item == hi - 1;
      if p < |prefix| {
        FanOutLogEntry(lo, hi - 1, n, p);
        assert log[p] == prefix[p];
      }
    }
  }

  /** Sends never go back to an earlier item. */
  lemma FanOutLogOrdered(lo: nat, hi: nat, n: nat)
    requires lo <= hi
    ensures forall p, q ::
      0 <= p < q < |FanOutLog(lo, hi, n)| ==> FanOutLog(lo, hi, n)[p].item <= FanOutLog(lo, hi, n)[q].item
  {
    forall p, q | 0 <= p < q < |FanOutLog(lo, hi, n)|
      ensures FanOutLog(lo, hi, n)[p].item <= FanOutLog(lo, hi, n)[q].item
    {
      FanOutLogOrderedAt(lo, hi, n, p, q);
    }
  }

  /** No sink is sent item k+1 before every sink has accepted item k. */
  lemma AllSinksAcceptBeforeNext(lo: nat, hi: nat, n: nat, p: nat, k: nat, sink: nat)
    requires lo <= k && lo <= hi
    requires p < |FanOutLog(lo, hi, n)| && FanOutLog(lo, hi, n)[p].item == k + 1
    requires sink < n
    ensures exists q :: 0 <= q < p && FanOutLog(lo, hi, n)[q] == Delivery(k, sink)
  {
    var log := FanOutLog(lo, hi, n);
    FanOutLogComplete(lo, hi, n);
    FanOutLogOrdered(lo, hi, n);
    assert Delivery(k, sink) in log;
    var q :| 0 <= q < |log| && log[q] == Delivery(k, sink);
  }

  /** The state machine that walks one batch. `batch` is what the iterator
      yields and `pulled` how many items it has yielded so far; `state` is
      Some(tx) while the fan-out of tx is in flight and None once the
      iterator is exhausted. `position` is the index in the batch of the
      transaction not yet delivered to every sink, so `batch[position..]`
      is what remains to be fanned out. */
  class Submitter {
    const sinks: Sinks
    const batch: seq<Transaction>
    var pulled: nat
    var state: Option<Transaction>
    ghost var position: nat

    ghost predicate Valid()
      reads this
    {
      && position <= pulled <= |batch|
      && (state.None? ==> position == pulled == |batch|)
      && (state.Some? ==> pulled == position + 1 && state.value == batch[position])
    }

    /** Submitter::new: takes the first transaction, if any, and prepares its
        fan-out; no send happens before the first poll. */
    constructor (sinks: Sinks, batch: seq<Transaction>)
      ensures Valid() && this.sinks == sinks && this.batch == batch && position == 0
      ensures state == if batch == [] then None else Some(batch[0])
    {
      this.sinks := sinks;
      this.batch := batch;
      position := 0;
      if batch == [] {
        pulled := 0;
        state := None;
      } else {
        pulled := 1;
        state := Some(batch[0]);
      }
    }

    /** join_all over the sends of one transaction: every sink in turn is
        sent `tx`, stopping at the first send that fails; `sent` lists the
        sends that were accepted. */
    method SendToAll(tx: Transaction, ghost item: nat) returns (ok: bool, ghost sent: seq<Delivery>)
      requires sinks.Valid()
      modifies sinks
      ensures sinks.Valid() && sinks.open == old(sinks.open)
      ensures ok == (false !in sinks.open)
      ensures sinks.queues == ExtendFirst(old(sinks.queues), Reach(sinks.open), tx)
      ensures sent == Row(item, Reach(sinks.open))
    {
      ghost var queues0 := sinks.queues;
      var i := 0;
      sent := [];
      while i < |sinks.queues|
        invariant 0 <= i <= |sinks.queues|
        invariant sinks.Valid() && sinks.open == old(sinks.open)
        invariant forall j :: 0 <= j < i ==> sinks.open[j]
        invariant sinks.queues == ExtendFirst(queues0, i, tx)
        invariant sent == Row(item, i)
      {
        var accepted := sinks.Send(i, tx);
        if !accepted {
          ReachAt(sinks.open, i);
          return false, sent;
        }
        ExtendFirstStep(queues0, i, tx);
        sent := sent + [Delivery(item, i)];
        i := i + 1;
      }
      ReachAt(sinks.open, i);
      return true, sent;
    }

    /** Pulls the next transaction from the iterator once the current one has
        reached every sink; None once the iterator is exhausted. */
    method Advance()
      requires Valid() && state.Some?
      modifies this`pulled, this`state, this`position
      ensures Valid() && position == old(position) + 1
    {
      position := position + 1;
      if pulled < |batch| {
        state := Some(batch[pulled]);
        pulled := pulled + 1;
      } else {
        state := None;
      }
    }

    /** One turn of poll's loop: fan out the current transaction and, once
        every sink has accepted it, pull the next one. */
    method Step() returns (ok: bool, ghost row: seq<Delivery>)
      requires Valid() && sinks.Valid() && state.Some?
      modifies this`pulled, this`state, this`position, sinks
      ensures Valid() && sinks.Valid() && sinks.open == old(sinks.open)
      ensures ok == (false !in sinks.open)
      ensures ok ==> position == old(position) + 1
      ensures ok ==> sinks.queues == ExtendFirst(old(sinks.queues), |old(sinks.queues)|, batch[old(position)])
      ensures ok ==> row == Row(old(position), |sinks.queues|)
      ensures !ok ==> pulled == old(pulled) && state == old(state) && position == old(position)
      ensures !ok ==> sinks.queues == ExtendFirst(old(sinks.queues), Reach(sinks.open), batch[position])
      ensures !ok ==> row == Row(position, Reach(sinks.open))
    {
      ok, row := SendToAll(state.value, position);
      if ok {
        Advance();
      }
    }

    /** Submitter::poll run to completion: fan out the current transaction;
        once every sink has accepted it, pull the next one from the iterator;
        stop when the iterator is exhausted or a send fails. `sent` lists
        the accepted sends in the order they happened. */
    method Poll() returns (c: Completion, ghost sent: seq<Delivery>)
      requires Valid() && sinks.Valid()
      modifies this, sinks
      ensures Valid() && sinks.Valid() && sinks.open == old(sinks.open)
      ensures c == Failed <==> old(position) < |batch| && false in sinks.open
      ensures c == Ready ==> state.None? && position == |batch|
      ensures c == Ready ==> sinks.queues == Extend(old(sinks.queues), batch[old(position)..])
      ensures c == Ready ==> sent == FanOutLog(old(position), |batch|, |sinks.queues|)
      ensures c == Failed ==> pulled == old(pulled) && state == old(state) && position == old(position)
      ensures c == Failed ==>
        sinks.queues == ExtendFirst(old(sinks.queues), Reach(sinks.open), batch[position])
      ensures c == Failed ==> sent == Row(position, Reach(sinks.open))
    {
      ghost var start := position;
      ghost var queues0 := sinks.queues;
      sent := [];
      ExtendNothing(queues0);
      assert batch[start..position] == [];
      while state.Some?
        invariant Valid() && sinks.Valid()
        invariant start <= position
        invariant sinks.open == old(sinks.open)
        invariant sinks.queues == Extend(queues0, batch[start..position])
        invariant sent == FanOutLog(start, position, |sinks.queues|)
        invariant start < position ==> false !in sinks.open
        invariant start == position ==> pulled == old(pulled) && state == old(state)
        decreases |batch| - position
      {
        ghost var p := position;
        var ok, row := Step();
        if !ok {
          return Failed, row;
        }
        ExtendStep(queues0, batch[start..p], batch[p]);
        assert batch[start..p + 1] == batch[start..p] + [batch[p]];
        assert FanOutLog(start, p + 1, |queues0|) == FanOutLog(start, p, |queues0|) + Row(p, |queues0|);
        sent := sent + row;
      }
      assert batch[start..position] == batch[start..];
      return Ready, sent;
    }
  }

  /** Submitter::new(sinks, batch) driven to completion: on success every
      sink's queue has grown by exactly the batch, in order; a send fails
      only when some endpoint is gone, and then no transaction after the
      first has been sent anywhere. */
  method Submit(sinks: Sinks, batch: seq<Transaction>) returns (c: Completion)
    requires sinks.Valid()
    modifies sinks
    ensures sinks.Valid() && sinks.open == old(sinks.open)
    ensures c == Failed <==> batch != [] && false in sinks.open
    ensures c == Ready ==> sinks.queues == Extend(old(sinks.queues), batch)
    ensures c == Ready ==> forall i :: 0 <= i < |sinks.queues| ==>
      sinks.queues[i] == old(sinks.queues[i]) + batch
    ensures c == Failed ==> forall i :: 0 <= i < |sinks.queues| ==>
      sinks.queues[i] == old(sinks.queues[i]) + if i < Reach(sinks.open) then [batch[0]] else []
  {
    var submitter := new Submitter(sinks, batch);
    ghost var sent;
    c, sent := submitter.Poll();
  }
}
