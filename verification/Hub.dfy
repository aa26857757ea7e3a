/**
  One user's event hub: numbering, bounded history, replay and fan-out.

  `Publish` is the locked half of publishing; the sends to the subscribers captured there follow one by
  one, in any order and interleaved with other publishers.  Channels are never reused.  An unsubscribe closes
  its channel, and a send on a closed channel panics; `panicked` says that one did, after which nothing moves.
 */
module HubSpec {
  import opened Seqs

  const CHANNEL_CAPACITY := 256

  datatype Event = Event(seqno: nat, payload: string)

  /** `queue` is what the channel holds, `received` what its reader took, `dropped` what found it full. */
  datatype Channel = Channel(
    since: nat, until: nat, open: bool, queue: seq<Event>, received: seq<Event>, dropped: set<nat>)
  {
    function Delivered(): seq<Event> {
      received + queue
    }

    /** The channel was subscribed when event `n` was published. */
    predicate Covers(n: nat) {
      since < n && n <= until
    }
  }

  /** `published[n-1]` is event `n` and `pending[n-1]` the channels it has yet to be sent to. */
  datatype State = State(
    size: nat, seqno: nat, history: seq<Event>, channels: seq<Channel>,
    published: seq<Event>, pending: seq<set<nat>>, panicked: bool)

  datatype Step =
    | Subscribe
    | Unsubscribe(channel: nat)
    | Publish(payload: string)
    | Send(event: nat, channel: nat)
    | Receive(channel: nat)

  function Init(historySize: int): State {
    State(if historySize <= 0 then 1000 else historySize, 0, [], [], [], [], false)
  }

  function OpenChannels(s: State): set<nat> {
    set c | 0 <= c < |s.channels| && s.channels[c].open
  }

  /** Open channels also cover the event just published. */
  function Extend(channels: seq<Channel>, n: nat): (r: seq<Channel>)
    ensures |r| == |channels|
    ensures forall c :: 0 <= c < |r| ==> r[c] == if channels[c].open then channels[c].(until := n) else channels[c]
  {
    seq(|channels|, c requires 0 <= c < |channels| =>
          if channels[c].open then channels[c].(until := n) else channels[c])
  }

  function ApplyPublish(s: State, payload: string): State {
    var n := s.seqno + 1;
    var e := Event(n, payload);
    s.(seqno := n, history := Last(s.history + [e], s.size), channels := Extend(s.channels, n),
       published := s.published + [e], pending := s.pending + [OpenChannels(s)])
  }

  function ApplySend(s: State, n: nat, c: nat): State {
    if n >= |s.pending| || n >= |s.published| || c >= |s.channels| || c !in s.pending[n] then s
    else if !s.channels[c].open then s.(panicked := true)
    else
      var ch := s.channels[c];
      s.(pending := s.pending[n := s.pending[n] - {c}],
         channels := s.channels[c :=
           if |ch.queue| < CHANNEL_CAPACITY then ch.(queue := ch.queue + [s.published[n]])
           else ch.(dropped := ch.dropped + {s.published[n].seqno})])
  }

  function Apply(s: State, step: Step): State {
    if s.panicked then s else Move(s, step)
  }

  /** A step of a hub whose process is alive. */
  function Move(s: State, step: Step): State {
    match step
    case Subscribe => s.(channels := s.channels + [Channel(s.seqno, s.seqno, true, [], [], {})])
    case Unsubscribe(c) =>
      if c >= |s.channels| then s
      else if !s.channels[c].open then s.(panicked := true)
      else s.(channels := s.channels[c := s.channels[c].(open := false)])
    case Publish(payload) => ApplyPublish(s, payload)
    case Send(n, c) => ApplySend(s, n, c)
    case Receive(c) =>
      if c >= |s.channels| || s.channels[c].queue == [] then s
      else
        var ch := s.channels[c];
        s.(channels := s.channels[c := ch.(queue := ch.queue[1..], received := ch.received + [ch.queue[0]])])
  }

  function Exec(size: int, steps: seq<Step>): State {
    if steps == [] then Init(size) else Apply(Exec(size, steps[..|steps|-1]), steps[|steps|-1])
  }

  function Replay(s: State, after: nat): seq<Event> {
    Above(s.history, after)
  }

  function Above(events: seq<Event>, after: nat): seq<Event> {
    if events == [] then []
    else
      var e := events[|events|-1];
      Above(events[..|events|-1], after) + if e.seqno > after then [e] else []
  }

  // ----- History and replay -----

  /** Events are numbered 1, 2, 3, ... and the history is the last of them. */
  ghost predicate Numbered(s: State) {
    && s.size > 0 && s.seqno == |s.published| == |s.pending|
    && (forall i :: 0 <= i < |s.published| ==> s.published[i].seqno == i + 1)
    && s.history == Last(s.published, s.size)
  }

  lemma NumberedStep(s: State, step: Step)
    requires Numbered(s)
    ensures Numbered(Move(s, step))
  {
    if step.Publish? {
      LastOfAppend(s.published, [Event(s.seqno + 1, step.payload)], s.size);
    }
  }

  lemma {:induction false} AboveIsSuffix(events: seq<Event>, first: nat, after: nat)
    requires forall i :: 0 <= i < |events| ==> events[i].seqno == first + i
    ensures Above(events, after) ==
            if after < first then events else if after - first + 1 <= |events| then events[after - first + 1..] else []
  {
    if events != [] {
      var front, last := events[..|events|-1], events[|events|-1];
      AboveIsSuffix(front, first, after);
      if after < first {
        assert front + [last] == events;
      } else if after - first + 1 <= |front| {
        SuffixSnoc(events, after - first + 1);
      } else if after - first + 1 == |events| {
        assert events[|events|..] == [];
      }
    }
  }

  /** A replay is the retained events above the given number, in order. */
  lemma ReplayIsRetained(s: State, after: nat)
    requires Numbered(s)
    ensures var dropped := s.seqno - |s.history|;
            var from := if after > dropped then after else dropped;
            Replay(s, after) == if from <= s.seqno then s.published[from..] else []
  {
    var dropped := s.seqno - |s.history|;
    assert s.history == s.published[dropped..];
    AboveIsSuffix(s.history, dropped + 1, after);
  }

  /** A replay has no gap exactly when the events after `after` are all still retained. */
  lemma ReplayGapFreeIff(s: State, after: nat)
    requires Numbered(s) && after <= s.seqno
    ensures Replay(s, after) == s.published[after..] <==> after + s.size >= s.seqno
  {
    ReplayIsRetained(s, after);
  }

  // ----- Delivery -----

  /** The event numbers a channel was given, in order of arrival. */
  predicate Got(ch: Channel, n: nat) {
    exists i :: 0 <= i < |ch.Delivered()| && ch.Delivered()[i].seqno == n
  }

  ghost predicate Genuine(s: State, ch: Channel) {
    && ch.since <= ch.until <= s.seqno && (ch.open ==> ch.until == s.seqno)
    && |ch.queue| <= CHANNEL_CAPACITY
    && (forall n :: n in ch.dropped ==> n <= s.seqno)
    && (forall i :: 0 <= i < |ch.Delivered()| ==>
          1 <= ch.Delivered()[i].seqno <= |s.published|
          && ch.Delivered()[i] == s.published[ch.Delivered()[i].seqno - 1])
    && (forall i, j :: 0 <= i < j < |ch.Delivered()| ==> ch.Delivered()[i].seqno != ch.Delivered()[j].seqno)
  }

  /** An event a channel covers is exactly one of: still to be sent, delivered, dropped. */
  predicate Fate(ch: Channel, pending: bool, n: nat) {
    if ch.Covers(n) then
      if pending then !Got(ch, n) && n !in ch.dropped else Got(ch, n) != (n in ch.dropped)
    else !pending && !Got(ch, n) && n !in ch.dropped
  }

  ghost predicate Accounted(s: State, c: nat)
    requires c < |s.channels| && |s.pending| == s.seqno
  {
    forall n :: 0 <= n < s.seqno ==> Fate(s.channels[c], c in s.pending[n], n + 1)
  }

  ghost predicate ChannelOk(s: State, c: nat)
    requires c < |s.channels| && |s.pending| == s.seqno
  {
    Genuine(s, s.channels[c]) && Accounted(s, c)
  }

  ghost predicate Inv(s: State) {
    && Numbered(s)
    && (forall n :: 0 <= n < |s.pending| ==> forall c :: c in s.pending[n] ==> c < |s.channels|)
    && (forall c :: 0 <= c < |s.channels| ==> ChannelOk(s, c))
  }

  /** What a channel was given depends on its deliveries only. */
  lemma SameGot(a: Channel, b: Channel, n: nat)
    requires a.Delivered() == b.Delivered()
    ensures Got(a, n) <==> Got(b, n)
  {}

  lemma PublishKeeps(s: State, payload: string, c: nat)
    requires Inv(s) && c < |s.channels|
    ensures ChannelOk(ApplyPublish(s, payload), c)
  {
    assert ChannelOk(s, c);
    var s' := ApplyPublish(s, payload);
    var ch, ch' := s.channels[c], s'.channels[c];
    assert ch'.Delivered() == ch.Delivered();
    assert Genuine(s', ch');
    forall n: nat ensures Got(ch', n) <==> Got(ch, n) {
      SameGot(ch', ch, n);
    }
    assert !Got(ch, s'.seqno);
    forall n | 0 <= n < s'.seqno ensures Fate(ch', c in s'.pending[n], n + 1) {
      if n < s.seqno {
        assert Fate(ch, c in s.pending[n], n + 1);
      }
    }
  }

  lemma SendKeepsOther(s: State, m: nat, d: nat, c: nat)
    requires Inv(s) && c < |s.channels| && c != d
    ensures ChannelOk(ApplySend(s, m, d), c)
  {
    assert ChannelOk(s, c);
    var s' := ApplySend(s, m, d);
    assert s'.channels[c] == s.channels[c] && s'.published == s.published;
    forall n | 0 <= n < s.seqno ensures Fate(s'.channels[c], c in s'.pending[n], n + 1) {
      assert Fate(s.channels[c], c in s.pending[n], n + 1);
    }
  }

  /** One more delivery: the new event is given, nothing else changes. */
  lemma GotSnoc(ch: Channel, e: Event, n: nat)
    ensures Got(ch.(queue := ch.queue + [e]), n) <==> Got(ch, n) || n == e.seqno
  {
    var ch' := ch.(queue := ch.queue + [e]);
    var d := ch.Delivered();
    assert ch'.Delivered() == d + [e];
    if Got(ch, n) {
      var i :| 0 <= i < |d| && d[i].seqno == n;
      assert ch'.Delivered()[i].seqno == n;
    }
    if n == e.seqno {
      assert ch'.Delivered()[|d|].seqno == n;
    }
  }

  lemma SendGenuine(s: State, m: nat, c: nat)
    requires Inv(s) && c < |s.channels| && m < |s.pending| && c in s.pending[m] && s.channels[c].open
    ensures var s' := ApplySend(s, m, c); Genuine(s', s'.channels[c])
  {
    assert ChannelOk(s, c);
    var s' := ApplySend(s, m, c);
    var ch, ch', e := s.channels[c], s'.channels[c], s.published[m];
    assert e.seqno == m + 1 && Fate(ch, c in s.pending[m], m + 1);
    if |ch.queue| < CHANNEL_CAPACITY {
      assert ch'.Delivered() == ch.Delivered() + [e];
      assert forall i :: 0 <= i < |ch.Delivered()| ==> ch.Delivered()[i].seqno != m + 1;
    } else {
      assert ch'.Delivered() == ch.Delivered();
    }
  }

  lemma SendKeepsSelf(s: State, m: nat, c: nat)
    requires Inv(s) && c < |s.channels| && m < |s.pending| && c in s.pending[m] && s.channels[c].open
    ensures ChannelOk(ApplySend(s, m, c), c)
  {
    assert ChannelOk(s, c);
    SendGenuine(s, m, c);
    var s' := ApplySend(s, m, c);
    var ch, ch' := s.channels[c], s'.channels[c];
    assert s.published[m].seqno == m + 1 && Fate(ch, c in s.pending[m], m + 1);
    forall n | 0 <= n < s.seqno ensures Fate(ch', c in s'.pending[n], n + 1) {
      assert Fate(ch, c in s.pending[n], n + 1);
      if |ch.queue| < CHANNEL_CAPACITY {
        GotSnoc(ch, s.published[m], n + 1);
      } else {
        SameGot(ch', ch, n + 1);
      }
    }
  }

  lemma ReceiveKeeps(s: State, c: nat)
    requires Inv(s) && c < |s.channels| && s.channels[c].queue != []
    ensures ChannelOk(Move(s, Receive(c)), c)
  {
    assert ChannelOk(s, c);
    var s' := Move(s, Receive(c));
    var ch, ch' := s.channels[c], s'.channels[c];
    assert ch'.Delivered() == ch.Delivered();
    forall n: nat ensures Got(ch', n) <==> Got(ch, n) {
      SameGot(ch', ch, n);
    }
    forall n | 0 <= n < s.seqno ensures Fate(ch', c in s.pending[n], n + 1) {
      assert Fate(ch, c in s.pending[n], n + 1);
    }
  }

  lemma UnsubscribeKeeps(s: State, c: nat)
    requires Inv(s) && c < |s.channels|
    ensures ChannelOk(Move(s, Unsubscribe(c)), c)
  {
    assert ChannelOk(s, c);
    var ch, ch' := s.channels[c], Move(s, Unsubscribe(c)).channels[c];
    assert ch'.Delivered() == ch.Delivered();
    forall n: nat ensures Got(ch', n) <==> Got(ch, n) {
      SameGot(ch', ch, n);
    }
    forall n | 0 <= n < s.seqno ensures Fate(ch', c in s.pending[n], n + 1) {
      assert Fate(ch, c in s.pending[n], n + 1);
    }
  }

  lemma SubscribeKeeps(s: State)
    requires Inv(s)
    ensures ChannelOk(Move(s, Subscribe), |s.channels|)
  {
    var s' := Move(s, Subscribe);
    var c := |s.channels|;
    assert s'.channels[c].Delivered() == [];
    assert forall n: nat :: !Got(s'.channels[c], n);
    assert forall n :: 0 <= n < s.seqno ==> c !in s.pending[n];
  }

  /** A step on other channels leaves this one alone. */
  lemma UntouchedKeeps(s: State, s': State, c: nat)
    requires Inv(s) && c < |s.channels| <= |s'.channels| && s'.channels[c] == s.channels[c]
    requires s'.pending == s.pending && s'.published == s.published && s'.seqno == s.seqno
    ensures ChannelOk(s', c)
  {
    assert ChannelOk(s, c);
  }

  lemma ChannelStep(s: State, step: Step, c: nat)
    requires Inv(s) && Numbered(Move(s, step)) && c < |Move(s, step).channels|
    ensures ChannelOk(Move(s, step), c)
  {
    var s' := Move(s, step);
    match step
    case Publish(payload) => PublishKeeps(s, payload, c);
    case Send(m, d) =>
      if s'.channels == s.channels && s'.pending == s.pending {
        UntouchedKeeps(s, s', c);
      } else if c == d {
        SendKeepsSelf(s, m, c);
      } else {
        SendKeepsOther(s, m, d, c);
      }
    case Receive(d) =>
      if c == d && s.channels[c].queue != [] {
        ReceiveKeeps(s, c);
      } else {
        UntouchedKeeps(s, s', c);
      }
    case Unsubscribe(d) =>
      if c == d {
        UnsubscribeKeeps(s, c);
      } else {
        UntouchedKeeps(s, s', c);
      }
    case Subscribe =>
      if c == |s.channels| {
        SubscribeKeeps(s);
      } else {
        UntouchedKeeps(s, s', c);
      }
  }

  lemma StepKeepsInv(s: State, step: Step)
    requires Inv(s)
    ensures Inv(Apply(s, step))
  {
    NumberedStep(s, step);
    var s' := Move(s, step);
    forall c | 0 <= c < |s'.channels| ensures ChannelOk(s', c) {
      ChannelStep(s, step, c);
    }
    PendingStep(s, step);
  }

  lemma PendingStep(s: State, step: Step)
    requires Inv(s)
    ensures var s' := Move(s, step);
            forall n :: 0 <= n < |s'.pending| ==> forall c :: c in s'.pending[n] ==> c < |s'.channels|
  {}

  lemma {:induction false} RunKeepsInv(size: int, steps: seq<Step>)
    ensures Inv(Exec(size, steps))
  {
    if steps != [] {
      RunKeepsInv(size, steps[..|steps|-1]);
      StepKeepsInv(Exec(size, steps[..|steps|-1]), steps[|steps|-1]);
    }
  }

  // ----- What a subscriber sees -----

  /** After any run the history is the last events published, numbered without a gap up to the counter. */
  lemma HistoryIsLastPublished(size: int, steps: seq<Step>)
    ensures var s := Exec(size, steps);
            && s.history == Last(s.published, s.size) && s.seqno == |s.published|
            && forall i :: 0 <= i < |s.history| ==> s.history[i].seqno == s.seqno - |s.history| + 1 + i
  {
    RunKeepsInv(size, steps);
  }

  /**
    However the sends of several publishers interleave, a channel is given each event at most once, as it
    was published, and none that its subscription already returned.
   */
  lemma DeliveredOnceAndNew(size: int, steps: seq<Step>, c: nat)
    requires c < |Exec(size, steps).channels|
    ensures var s := Exec(size, steps);
            var d := s.channels[c].Delivered();
            && s.seqno == |s.published|
            && (forall i :: 0 <= i < |d| ==> s.channels[c].since < d[i].seqno <= s.seqno)
            && (forall i :: 0 <= i < |d| ==> d[i] == s.published[d[i].seqno - 1])
            && (forall i, j :: 0 <= i < j < |d| ==> d[i].seqno != d[j].seqno)
  {
    RunKeepsInv(size, steps);
    var s := Exec(size, steps);
    var ch := s.channels[c];
    assert ChannelOk(s, c);
    forall i | 0 <= i < |ch.Delivered()| ensures ch.since < ch.Delivered()[i].seqno {
      var n := ch.Delivered()[i].seqno;
      assert Got(ch, n) && Fate(ch, c in s.pending[n - 1], n - 1 + 1);
    }
  }

  /** Once all sends are done, an open channel has received exactly the events since, but for the drops. */
  lemma NothingLost(size: int, steps: seq<Step>, c: nat, n: nat)
    requires var s := Exec(size, steps);
             && c < |s.channels| && s.channels[c].open && s.channels[c].since < n <= s.seqno
             && forall i :: 0 <= i < |s.pending| ==> c !in s.pending[i]
    ensures var ch := Exec(size, steps).channels[c];
            Got(ch, n) <==> n !in ch.dropped
  {
    RunKeepsInv(size, steps);
    var s := Exec(size, steps);
    assert ChannelOk(s, c) && Fate(s.channels[c], c in s.pending[n - 1], n - 1 + 1);
  }

  /** The payloads published while the hub was alive, in order. */
  function Payloads(size: int, steps: seq<Step>): seq<string> {
    if steps == [] then []
    else
      var front, step := steps[..|steps|-1], steps[|steps|-1];
      Payloads(size, front) + if step.Publish? && !Exec(size, front).panicked then [step.payload] else []
  }

  lemma PublishedStep(s: State, step: Step)
    ensures Apply(s, step).published ==
            s.published + if step.Publish? && !s.panicked then [Event(s.seqno + 1, step.payload)] else []
  {}

  /** Events carry what was published, numbered from 1 in the order of publishing. */
  lemma {:induction false} PublishedAre(size: int, steps: seq<Step>)
    ensures var s := Exec(size, steps);
            && |s.published| == |Payloads(size, steps)|
            && forall n :: 0 <= n < |s.published| ==> s.published[n] == Event(n + 1, Payloads(size, steps)[n])
  {
    if steps != [] {
      var front := steps[..|steps|-1];
      PublishedAre(size, front);
      RunKeepsInv(size, front);
      PublishedStep(Exec(size, front), steps[|steps|-1]);
    }
  }

  /** A channel is open from its subscription until it is unsubscribed, and its reader takes events as they came. */
  lemma ChannelLife(s: State, step: Step, c: nat)
    requires c < |s.channels| && !s.panicked
    ensures c < |Apply(s, step).channels|
    ensures Apply(s, step).channels[c].open <==> s.channels[c].open && step != Unsubscribe(c)
    ensures var ch, ch' := s.channels[c], Apply(s, step).channels[c];
            if step == Receive(c) && ch.queue != [] then ch'.received == ch.received + [ch.queue[0]]
            else ch'.received == ch.received
  {}

  /** A new channel is open, holds nothing, and is the next one. */
  lemma ChannelBegins(s: State)
    requires !s.panicked
    ensures var s' := Apply(s, Subscribe);
            && |s'.channels| == |s.channels| + 1 && s'.channels[..|s.channels|] == s.channels
            && s'.channels[|s.channels|].open && s'.channels[|s.channels|].Delivered() == []
  {}

  /** `step` sends event `n + 1` to the open channel `c`. */
  ghost predicate Sends(s: State, step: Step, n: nat, c: nat) {
    && step == Send(n, c) && !s.panicked
    && n < |s.pending| && c in s.pending[n] && c < |s.channels| && s.channels[c].open
  }

  /** A channel takes what is sent to it while it holds fewer than 256 events, behind what it was given before. */
  lemma DeliveryStep(s: State, step: Step, c: nat)
    requires Inv(s) && c < |s.channels|
    ensures c < |Apply(s, step).channels|
    ensures var before, after := s.channels[c].Delivered(), Apply(s, step).channels[c].Delivered();
            if step.Send? && Sends(s, step, step.event, c) && |s.channels[c].queue| < 256
            then after == before + [s.published[step.event]] else after == before
  {
    var ch, ch' := s.channels[c], Apply(s, step).channels[c];
    assert ch'.queue == ch.queue && ch'.received == ch.received ==> ch'.Delivered() == ch.Delivered();
    if step == Receive(c) && ch.queue != [] && !s.panicked {
      assert ch.received + [ch.queue[0]] + ch.queue[1..] == ch.received + ch.queue;
    } else if step.Send? && Sends(s, step, step.event, c) && |ch.queue| < 256 {
      assert ch'.Delivered() == ch.received + (ch.queue + [s.published[step.event]]);
    }
  }

  lemma GotStep(s: State, step: Step, n: nat, c: nat)
    requires Inv(s) && c < |s.channels|
    ensures c < |Apply(s, step).channels|
    ensures Got(Apply(s, step).channels[c], n + 1) <==>
            Got(s.channels[c], n + 1) || (Sends(s, step, n, c) && |s.channels[c].queue| < 256)
  {
    var ch, ch' := s.channels[c], Apply(s, step).channels[c];
    DeliveryStep(s, step, c);
    if step.Send? && Sends(s, step, step.event, c) && |ch.queue| < 256 {
      assert s.published[step.event].seqno == step.event + 1;
      GotSnoc(ch, s.published[step.event], n + 1);
      SameGot(ch', ch.(queue := ch.queue + [s.published[step.event]]), n + 1);
    } else {
      SameGot(ch', ch, n + 1);
    }
  }

  lemma DropStep(s: State, step: Step, n: nat, c: nat)
    requires Inv(s) && c < |s.channels|
    ensures c < |Apply(s, step).channels|
    ensures n + 1 in Apply(s, step).channels[c].dropped <==>
            n + 1 in s.channels[c].dropped || (Sends(s, step, n, c) && |s.channels[c].queue| >= 256)
  {
    if step.Send? && Sends(s, step, step.event, c) {
      assert s.published[step.event].seqno == step.event + 1;
    }
  }

  /** Step `i` sends event `n + 1` to channel `c`, which then holds fewer than 256 events, or it does not. */
  ghost predicate SentAt(size: int, steps: seq<Step>, i: nat, n: nat, c: nat, room: bool)
    requires i < |steps|
  {
    var s := Exec(size, steps[..i]);
    Sends(s, steps[i], n, c) && (|s.channels[c].queue| < 256 <==> room)
  }

  ghost predicate SentIn(size: int, steps: seq<Step>, n: nat, c: nat, room: bool) {
    exists i :: 0 <= i < |steps| && SentAt(size, steps, i, n, c, room)
  }

  lemma SentSnoc(size: int, front: seq<Step>, step: Step, n: nat, c: nat, room: bool)
    ensures SentIn(size, front + [step], n, c, room) <==>
            || SentIn(size, front, n, c, room)
            || (Sends(Exec(size, front), step, n, c) && (|Exec(size, front).channels[c].queue| < 256 <==> room))
  {
    var steps := front + [step];
    assert steps[..|front|] == front && steps[|front|] == step;
    forall i | 0 <= i < |front| ensures SentAt(size, steps, i, n, c, room) <==> SentAt(size, front, i, n, c, room) {
      assert steps[..i] == front[..i];
    }
    if SentIn(size, front, n, c, room) {
      var i :| 0 <= i < |front| && SentAt(size, front, i, n, c, room);
      assert SentAt(size, steps, i, n, c, room);
    }
    if Sends(Exec(size, front), step, n, c) && (|Exec(size, front).channels[c].queue| < 256 <==> room) {
      assert SentAt(size, steps, |front|, n, c, room);
    }
  }

  lemma {:induction false} NotSentYet(size: int, steps: seq<Step>, n: nat, c: nat, room: bool)
    requires c >= |Exec(size, steps).channels|
    ensures !SentIn(size, steps, n, c, room)
  {
    if steps != [] {
      var front, step := steps[..|steps|-1], steps[|steps|-1];
      assert steps == front + [step];
      ChannelsGrow(Exec(size, front), step);
      NotSentYet(size, front, n, c, room);
      SentSnoc(size, front, step, n, c, room);
    }
  }

  lemma ChannelsGrow(s: State, step: Step)
    ensures |s.channels| <= |Apply(s, step).channels|
    ensures forall c :: |s.channels| <= c < |Apply(s, step).channels| ==>
              Apply(s, step).channels[c].Delivered() == [] && Apply(s, step).channels[c].dropped == {}
  {}

  /**
    Over every run, a channel is given exactly the events sent to it while it held fewer than 256, and exactly
    those sent while it held as many are dropped.
   */
  lemma {:induction false} GivenIffRoom(size: int, steps: seq<Step>, n: nat, c: nat)
    requires c < |Exec(size, steps).channels|
    ensures Got(Exec(size, steps).channels[c], n + 1) <==> SentIn(size, steps, n, c, true)
    ensures n + 1 in Exec(size, steps).channels[c].dropped <==> SentIn(size, steps, n, c, false)
  {
    var front, step := steps[..|steps|-1], steps[|steps|-1];
    assert steps == front + [step];
    var s := Exec(size, front);
    SentSnoc(size, front, step, n, c, true);
    SentSnoc(size, front, step, n, c, false);
    if c < |s.channels| {
      GivenIffRoom(size, front, n, c);
      RunKeepsInv(size, front);
      GotStep(s, step, n, c);
      DropStep(s, step, n, c);
    } else {
      NotSentYet(size, front, n, c, true);
      NotSentYet(size, front, n, c, false);
      ChannelsGrow(s, step);
    }
  }

  /** A channel never gives back or reorders what it was given. */
  lemma {:induction false} DeliveredGrows(size: int, before: seq<Step>, after: seq<Step>, c: nat)
    requires c < |Exec(size, before).channels|
    ensures c < |Exec(size, before + after).channels|
    ensures Exec(size, before).channels[c].Delivered() <= Exec(size, before + after).channels[c].Delivered()
  {
    if after == [] {
      ConcatEmpty(before);
    } else {
      var after', step := after[..|after|-1], after[|after|-1];
      assert (before + after)[..|before + after|-1] == before + after';
      DeliveredGrows(size, before, after', c);
      RunKeepsInv(size, before + after');
      DeliveryStep(Exec(size, before + after'), step, c);
    }
  }

  lemma SinceStep(s: State, step: Step, c: nat)
    requires c < |s.channels|
    ensures c < |Apply(s, step).channels| && Apply(s, step).channels[c].since == s.channels[c].since
  {}

  lemma {:induction false} SinceFixed(size: int, before: seq<Step>, after: seq<Step>)
    requires !Exec(size, before).panicked
    ensures var c, s := |Exec(size, before).channels|, Exec(size, before + [Subscribe] + after);
            c < |s.channels| && s.channels[c].since == Exec(size, before).seqno
  {
    var steps := before + [Subscribe] + after;
    if after == [] {
      assert steps == before + [Subscribe] && steps[..|before|] == before;
    } else {
      var after' := after[..|after|-1];
      assert steps[..|steps|-1] == before + [Subscribe] + after';
      SinceFixed(size, before, after');
      SinceStep(Exec(size, before + [Subscribe] + after'), steps[|steps|-1], |Exec(size, before).channels|);
    }
  }

  /** What `Subscribe` returned and what its channel is given later never overlap. */
  lemma HistoryAndLiveDisjoint(size: int, before: seq<Step>, after: seq<Step>, h: nat, d: nat)
    requires h < |Exec(size, before).history| && !Exec(size, before).panicked
    requires var c, s := |Exec(size, before).channels|, Exec(size, before + [Subscribe] + after);
             c < |s.channels| && d < |s.channels[c].Delivered()|
    ensures var c, s := |Exec(size, before).channels|, Exec(size, before + [Subscribe] + after);
            Exec(size, before).history[h].seqno < s.channels[c].Delivered()[d].seqno
  {
    HistoryIsLastPublished(size, before);
    SinceFixed(size, before, after);
    DeliveredOnceAndNew(size, before + [Subscribe] + after, |Exec(size, before).channels|);
  }

  // ----- Sends on closed channels -----

  /** Event `n + 1` has yet to be sent to the channel, which is closed. */
  predicate Doomed(s: State, n: nat, c: nat) {
    n < |s.pending| && n < |s.published| && c < |s.channels| && c in s.pending[n] && !s.channels[c].open
  }

  /** The event was published while the channel was subscribed and was still to be sent when that was closed. */
  ghost predicate LeftPending(size: int, steps: seq<Step>, i: nat, n: nat, c: nat) {
    && i < |steps| && steps[i] == Unsubscribe(c)
    && var s := Exec(size, steps[..i]);
       n < |s.pending| && c < |s.channels| && s.channels[c].open && c in s.pending[n]
  }

  /** It has not been sent since. */
  ghost predicate NotSentSince(steps: seq<Step>, i: nat, n: nat, c: nat) {
    forall j :: i < j < |steps| ==> steps[j] != Send(n, c)
  }

  ghost predicate ClosedTooSoon(size: int, steps: seq<Step>, n: nat, c: nat) {
    exists i: nat :: LeftPending(size, steps, i, n, c) && NotSentSince(steps, i, n, c)
  }

  lemma ClosedTooSoonSnoc(size: int, front: seq<Step>, step: Step, n: nat, c: nat)
    ensures ClosedTooSoon(size, front + [step], n, c) <==>
            || LeftPending(size, front + [step], |front|, n, c)
            || (ClosedTooSoon(size, front, n, c) && step != Send(n, c))
  {
    var steps := front + [step];
    forall i: nat | i < |front| ensures LeftPending(size, steps, i, n, c) <==> LeftPending(size, front, i, n, c) {
      assert steps[..i] == front[..i];
    }
    if i: nat :| LeftPending(size, front, i, n, c) && NotSentSince(front, i, n, c) {
      if step != Send(n, c) {
        assert LeftPending(size, steps, i, n, c) && NotSentSince(steps, i, n, c);
      }
    }
    if i: nat :| LeftPending(size, steps, i, n, c) && NotSentSince(steps, i, n, c) {
      if i < |front| {
        assert steps[|front|] == step;
        assert forall j :: i < j < |front| ==> front[j] == steps[j];
        assert LeftPending(size, front, i, n, c) && NotSentSince(front, i, n, c);
      }
    }
    if LeftPending(size, steps, |front|, n, c) {
      assert NotSentSince(steps, |front|, n, c);
    }
  }

  lemma DoomedStep(s: State, step: Step, n: nat, c: nat)
    requires Inv(s) && !s.panicked && !Apply(s, step).panicked
    ensures Doomed(Apply(s, step), n, c) <==>
            || (step == Unsubscribe(c) && n < |s.pending| && c < |s.channels| && s.channels[c].open
                && c in s.pending[n])
            || (Doomed(s, n, c) && step != Send(n, c))
  {
    if step.Publish? {
      assert Apply(s, step).pending[|s.pending|] == OpenChannels(s);
    }
  }

  /** In a run without a panic, the sends that will panic are exactly those left over when their channel closed. */
  lemma {:induction false} DoomedIffClosedTooSoon(size: int, steps: seq<Step>, n: nat, c: nat)
    requires !Exec(size, steps).panicked
    ensures Doomed(Exec(size, steps), n, c) <==> ClosedTooSoon(size, steps, n, c)
  {
    if steps != [] {
      var front, step := steps[..|steps|-1], steps[|steps|-1];
      assert steps == front + [step] && steps[..|front|] == front;
      RunKeepsInv(size, front);
      DoomedIffClosedTooSoon(size, front, n, c);
      DoomedStep(Exec(size, front), step, n, c);
      ClosedTooSoonSnoc(size, front, step, n, c);
    }
  }

  /**
    The next send panics if and only if its event was published while the channel was subscribed, was still to
    be sent when the subscriber left, and has not been sent since.
   */
  lemma SendPanicsIff(size: int, steps: seq<Step>, n: nat, c: nat)
    requires !Exec(size, steps).panicked
    ensures Exec(size, steps + [Send(n, c)]).panicked <==> ClosedTooSoon(size, steps, n, c)
  {
    RunKeepsInv(size, steps);
    assert (steps + [Send(n, c)])[..|steps|] == steps;
    DoomedIffClosedTooSoon(size, steps, n, c);
  }

  lemma ExecSnoc(size: int, steps: seq<Step>, step: Step)
    ensures Exec(size, steps + [step]) == Apply(Exec(size, steps), step)
  {
    assert (steps + [step])[..|steps|] == steps;
  }

  lemma ExecTwoMore(size: int, steps: seq<Step>, a: Step, b: Step)
    ensures Exec(size, steps + [a] + [b]) == Apply(Apply(Exec(size, steps), a), b)
  {
    ExecSnoc(size, steps, a);
    ExecSnoc(size, steps + [a], b);
  }

  /** A subscriber that leaves between a publish and its send. */
  lemma SubscriberLeavesTooSoon()
    ensures Exec(1, [] + [Subscribe] + [Publish("")] + [Unsubscribe(0)] + [Send(0, 0)]).panicked
  {
    ExecTwoMore(1, [], Subscribe, Publish(""));
    ExecTwoMore(1, [] + [Subscribe] + [Publish("")], Unsubscribe(0), Send(0, 0));
    var s1 := Apply(Init(1), Subscribe);
    var s2 := Apply(s1, Publish(""));
    assert 0 in OpenChannels(s1);
    assert s2.channels[0].open && s2.pending[0] == OpenChannels(s1);
  }

  /** A history of one, two events, and a client that has seen neither. */
  lemma ReplayMissesFirst(first: string, second: string)
    ensures var s := Exec(1, [] + [Publish(first)] + [Publish(second)]);
            s.published == [Event(1, first), Event(2, second)] && Replay(s, 0) == [Event(2, second)]
  {
    var steps := [] + [Publish(first)] + [Publish(second)];
    ExecTwoMore(1, [], Publish(first), Publish(second));
    RunKeepsInv(1, steps);
    var s := Exec(1, steps);
    assert s.published == [Event(1, first), Event(2, second)];
    ReplayIsRetained(s, 0);
    assert s.published[1..] == [Event(2, second)];
  }

  /** A subscriber is given the event published after it came. */
  lemma SubscriberGetsEvent(payload: string)
    ensures var s := Exec(1, [] + [Subscribe] + [Publish(payload)] + [Send(0, 0)]);
            |s.channels| == 1 && s.channels[0].Delivered() == [Event(1, payload)] && !s.panicked
  {
    var steps := [] + [Subscribe] + [Publish(payload)];
    ExecTwoMore(1, [], Subscribe, Publish(payload));
    ExecSnoc(1, steps, Send(0, 0));
    RunKeepsInv(1, steps);
    var s1 := Apply(Init(1), Subscribe);
    var s := Exec(1, steps);
    assert 0 in OpenChannels(s1);
    assert s.pending[0] == OpenChannels(s1) && s.channels[0].Delivered() == [];
    DeliveryStep(s, Send(0, 0), 0);
  }
}
