/**
  A stream client that comes back: the handler replays what it missed in one lock section of the hub and
  subscribes it in another.
 */
module HubCalls {
  import opened Seqs
  import opened HubSpec

  /**
    The client has seen `last`, its `Last-Event-ID`; the replay comes after the steps `a`, the subscription
    after `b`, and then `c`.  Without an id there is no replay.
   */
  datatype Reconnect = Reconnect(last: nat, a: seq<Step>, b: seq<Step>, c: seq<Step>)

  function AtReplay(size: int, r: Reconnect): State {
    Exec(size, r.a)
  }

  function AtSubscribe(size: int, r: Reconnect): State {
    Exec(size, r.a + r.b)
  }

  function AtEnd(size: int, r: Reconnect): State {
    Exec(size, r.a + r.b + [Subscribe] + r.c)
  }

  /** The subscription worked, its channel is open, and all that was published for it has been sent and had room. */
  ghost predicate Served(size: int, r: Reconnect) {
    var s, c := AtEnd(size, r), |AtSubscribe(size, r).channels|;
    && !AtSubscribe(size, r).panicked
    && c < |s.channels| && s.channels[c].open && s.channels[c].dropped == {}
    && forall i :: 0 <= i < |s.pending| ==> c !in s.pending[i]
  }

  predicate Has(events: seq<Event>, n: nat) {
    exists i :: 0 <= i < |events| && events[i].seqno == n
  }

  predicate Replayed(size: int, r: Reconnect, n: nat) {
    r.last > 0 && Has(Replay(AtReplay(size, r), r.last), n)
  }

  predicate Live(size: int, r: Reconnect, n: nat) {
    var s, c := AtEnd(size, r), |AtSubscribe(size, r).channels|;
    c < |s.channels| && Got(s.channels[c], n)
  }

  lemma CounterStep(s: State, step: Step)
    ensures s.seqno <= Apply(s, step).seqno && Apply(s, step).size == s.size
  {}

  lemma {:induction false} CounterGrows(size: int, before: seq<Step>, after: seq<Step>)
    ensures Exec(size, before).seqno <= Exec(size, before + after).seqno
  {
    if after == [] {
      ConcatEmpty(before);
    } else {
      var after' := after[..|after|-1];
      assert (before + after)[..|before + after|-1] == before + after';
      CounterGrows(size, before, after');
      CounterStep(Exec(size, before + after'), after[|after|-1]);
    }
  }

  /** The counter stood no lower at each later moment. */
  lemma Ordered(size: int, r: Reconnect)
    ensures AtReplay(size, r).seqno <= AtSubscribe(size, r).seqno <= AtEnd(size, r).seqno
  {
    CounterGrows(size, r.a, r.b);
    assert r.a + r.b + [Subscribe] + r.c == r.a + r.b + ([Subscribe] + r.c);
    CounterGrows(size, r.a + r.b, [Subscribe] + r.c);
  }

  lemma SuffixHas(events: seq<Event>, from: nat, n: nat)
    requires (forall i :: 0 <= i < |events| ==> events[i].seqno == i + 1) && from <= |events|
    ensures Has(events[from..], n) <==> from < n <= |events|
  {
    if from < n <= |events| {
      assert events[from..][n - 1 - from].seqno == n;
    }
  }

  /** The replay brings exactly the events retained then that the client had not seen. */
  lemma ReplayedIff(size: int, r: Reconnect, n: nat)
    requires 0 < r.last < n
    ensures var p := AtReplay(size, r);
            Replayed(size, r, n) <==> p.seqno - p.size < n <= p.seqno
  {
    var p := AtReplay(size, r);
    RunKeepsInv(size, r.a);
    ReplayIsRetained(p, r.last);
    var dropped := p.seqno - |p.history|;
    var from := if r.last > dropped then r.last else dropped;
    if from <= p.seqno {
      SuffixHas(p.published, from, n);
    }
  }

  /** The channel brings exactly the events published since the subscription. */
  lemma LiveIff(size: int, r: Reconnect, n: nat)
    requires Served(size, r) && 0 < n <= AtEnd(size, r).seqno
    ensures Live(size, r, n) <==> AtSubscribe(size, r).seqno < n
  {
    var steps, c := r.a + r.b + [Subscribe] + r.c, |AtSubscribe(size, r).channels|;
    SinceFixed(size, r.a + r.b, r.c);
    if AtSubscribe(size, r).seqno < n {
      NothingLost(size, steps, c, n);
    } else if Live(size, r, n) {
      DeliveredOnceAndNew(size, steps, c);
      assert false;
    }
  }

  /** No event comes twice. */
  lemma ReplayedOrLive(size: int, r: Reconnect, n: nat)
    requires Served(size, r) && 0 < r.last < n <= AtEnd(size, r).seqno
    ensures !(Replayed(size, r, n) && Live(size, r, n))
  {
    Ordered(size, r);
    ReplayedIff(size, r, n);
    LiveIff(size, r, n);
  }

  /**
    The client gets every event after the last it has seen if and only if the replay's history reaches back to
    it and nothing it has not seen was published between the replay and the subscription.
   */
  lemma NothingMissedIff(size: int, r: Reconnect)
    requires Served(size, r) && r.last > 0
    ensures var p, q := AtReplay(size, r), AtSubscribe(size, r);
            (forall n: nat :: r.last < n <= AtEnd(size, r).seqno ==> Replayed(size, r, n) || Live(size, r, n)) <==>
            p.seqno <= r.last + p.size && (q.seqno == p.seqno || q.seqno <= r.last)
  {
    var p, q, s := AtReplay(size, r), AtSubscribe(size, r), AtEnd(size, r);
    Ordered(size, r);
    forall n: nat | r.last < n <= s.seqno
      ensures Replayed(size, r, n) || Live(size, r, n) <==> p.seqno - p.size < n <= p.seqno || q.seqno < n
    {
      ReplayedIff(size, r, n);
      LiveIff(size, r, n);
    }
    if p.seqno > r.last + p.size {
      assert !Replayed(size, r, r.last + 1) && !Live(size, r, r.last + 1);
    } else if q.seqno != p.seqno && q.seqno > r.last {
      assert !Replayed(size, r, q.seqno) && !Live(size, r, q.seqno);
    }
  }

  /** The client has seen event 1; event 2 is published between the replay and the subscription. */
  lemma PublishedBetween(first: string, second: string)
    ensures var r := Reconnect(1, [] + [Publish(first)], [Publish(second)], []);
            && Served(1, r) && AtEnd(1, r).seqno == 2
            && !Replayed(1, r, 2) && !Live(1, r, 2)
  {
    var r := Reconnect(1, [] + [Publish(first)], [Publish(second)], []);
    assert r.a + r.b + [Subscribe] + r.c == r.a + r.b + [Subscribe];
    ExecSnoc(1, [], Publish(first));
    ExecTwoMore(1, r.a, Publish(second), Subscribe);
    ExecSnoc(1, r.a, Publish(second));
    ReplayedIff(1, r, 2);
    LiveIff(1, r, 2);
  }
}
