/** The hub's methods over the heap, each proved to be one step of `HubSpec`. */
module HubImpl {
  import opened HubSpec

  class Chan {
    ghost const id: nat
    var queue: seq<Event>
    var closed: bool

    constructor (ghost id: nat)
      ensures this.id == id && queue == [] && !closed
    {
      this.id, queue, closed := id, [], false;
    }
  }

  /** What one send does: the channel takes the event, or is full, or was closed. */
  datatype Sending = Sent | Dropped | Panic

  class UserHub {
    const size: nat
    var seqno: nat
    var history: seq<Event>
    var subs: set<Chan>
    ghost var chans: seq<Chan>
    ghost var model: State

    ghost predicate Valid()
      reads this, chans
    {
      && size == model.size > 0 && seqno == model.seqno && history == model.history
      && |chans| == |model.channels|
      && (forall i :: 0 <= i < |chans| ==> chans[i].id == i && chans[i].queue == model.channels[i].queue)
      && (forall i :: 0 <= i < |chans| ==> chans[i].closed == !model.channels[i].open)
      && (forall ch :: ch in subs ==> ch in chans)
      && (forall i :: 0 <= i < |chans| ==> (chans[i] in subs <==> model.channels[i].open))
    }

    constructor (historySize: int)
      ensures Valid() && model == Init(historySize)
    {
      size := if historySize <= 0 then 1000 else historySize;
      seqno, history, subs := 0, [], {};
      chans, model := [], Init(historySize);
    }

    method Subscribe() returns (ch: Chan, at: nat, past: seq<Event>)
      requires Valid() && !model.panicked
      modifies this
      ensures Valid() && model == Apply(old(model), Step.Subscribe)
      ensures ch.id == |old(model).channels| && at == model.channels[ch.id].since && past == model.history
    {
      ch := new Chan(|chans|);
      subs := subs + {ch};
      chans := chans + [ch];
      model := Apply(model, Step.Subscribe);
      at, past := seqno, history;
    }

    /** Takes the channel out and closes it, which panics the second time. */
    method Unsubscribe(ch: Chan) returns (panic: bool)
      requires Valid() && !model.panicked && ch in chans
      modifies this, ch
      ensures Valid() && model == Apply(old(model), Step.Unsubscribe(ch.id)) && panic == model.panicked
    {
      subs := subs - {ch};
      model := Apply(model, Step.Unsubscribe(ch.id));
      panic := ch.closed;
      ch.closed := true;
    }

    /** The locked half of `publish`: the event, and the channels it is to be sent to. */
    method Publish(payload: string) returns (e: Event, targets: set<Chan>)
      requires Valid() && !model.panicked
      modifies this
      ensures Valid() && model == ApplyPublish(old(model), payload) && chans == old(chans)
      ensures e == model.published[|old(model).published|]
      ensures forall i :: 0 <= i < |chans| ==> (chans[i] in targets <==> i in model.pending[|old(model).pending|])
    {
      seqno := seqno + 1;
      e := Event(seqno, payload);
      history := history + [e];
      if |history| > size {
        history := history[|history| - size..];
      }
      targets := subs;
      model := ApplyPublish(model, payload);
    }

    /** One unlocked send of `publish`: it never blocks, and drops the event when the channel is full. */
    method TrySend(e: Event, ghost n: nat, ch: Chan) returns (r: Sending)
      requires Valid() && !model.panicked && ch in chans
      requires n < |model.published| && n < |model.pending| && model.published[n] == e && ch.id in model.pending[n]
      modifies this`model, ch`queue
      ensures Valid() && model == ApplySend(old(model), n, ch.id) && (r == Panic <==> model.panicked)
      ensures r == Panic <==> ch.closed
      ensures r == Sent <==> !ch.closed && |old(ch.queue)| < 256
      ensures ch.queue == old(ch.queue) + if r == Sent then [e] else []
    {
      model := ApplySend(model, n, ch.id);
      if ch.closed { return Panic; }
      if |ch.queue| >= CHANNEL_CAPACITY { return Dropped; }
      ch.queue := ch.queue + [e];
      return Sent;
    }

    method Replay(after: nat) returns (events: seq<Event>)
      requires Valid()
      ensures events == HubSpec.Replay(model, after)
    {
      events := [];
      for i := 0 to |history|
        invariant events == Above(history[..i], after)
      {
        assert history[..i+1][..i] == history[..i];
        if history[i].seqno > after {
          events := events + [history[i]];
        }
      }
      assert history[..|history|] == history;
    }
  }
}
