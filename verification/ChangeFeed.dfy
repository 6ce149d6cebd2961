/** The in-process change feed: one bounded broadcast channel per project.
  *
  * `publish` looks the channel up under the map's lock but sends after releasing it, so a
  * publish is two steps here, and any other step may run in between. A channel keeps the
  * whole log of what was sent on it; what a reader can still reach is the last `CAPACITY`
  * entries of that log.
  */
module ChangeFeed {

  type Uuid = nat
  type ChannelId = nat
  type ReceiverId = nat
  type SendId = nat

  const CAPACITY: nat := 256

  datatype ProjectEvent = ProjectEvent(project: Uuid, payload: string)

  // What the stream hands to the HTTP response.
  datatype Frame = Change(event: ProjectEvent) | Resync

  datatype Channel = Channel(project: Uuid, log: seq<ProjectEvent>)

  datatype Receiver = Receiver(channel: ChannelId, start: nat, next: nat, emitted: seq<Frame>)

  // A publish between its lock section and its send: it holds a clone of the sender.
  datatype Sending = Sending(channel: ChannelId, event: ProjectEvent)

  datatype Bus = Bus(
    channels: map<Uuid, ChannelId>,
    created: seq<Channel>,
    receivers: map<ReceiverId, Receiver>,
    sends: map<SendId, Sending>,
    nextReceiver: ReceiverId,
    nextSend: SendId)

  const EMPTY := Bus(map[], [], map[], map[], 0, 0)

  datatype Action =
    | Subscribe(project: Uuid)
    | PublishLocked(project: Uuid, payload: string)
    | PublishSend(send: SendId)
    | Receive(receiver: ReceiverId)
    | Drop(receiver: ReceiverId)

  // `receiver_count() == 0`
  predicate Deserted(b: Bus, c: ChannelId) {
    forall r <- b.receivers :: b.receivers[r].channel != c
  }

  // Every sender of the channel is gone: neither the map nor a running publish holds one.
  predicate SendersGone(b: Bus, c: ChannelId) {
    && (forall p <- b.channels :: b.channels[p] != c)
    && (forall k <- b.sends :: b.sends[k].channel != c)
  }

  // No receiver of the project is live.
  ghost predicate NoSubscriber(b: Bus, p: Uuid) {
    forall r <- b.receivers ::
      b.receivers[r].channel < |b.created| ==> b.created[b.receivers[r].channel].project != p
  }

  // --- steps ---------------------------------------------------------------

  // `entry(project_id).or_insert_with(..)`
  function Opened(b: Bus, p: Uuid): Bus {
    if p in b.channels then b else
    b.(channels := b.channels[p := |b.created|], created := b.created + [Channel(p, [])])
  }

  function SubscribeStep(b: Bus, p: Uuid): Bus {
    var b1 := Opened(b, p);
    var c := b1.channels[p];
    var at := if c < |b1.created| then |b1.created[c].log| else 0;
    b1.(receivers := b1.receivers[b1.nextReceiver := Receiver(c, at, at, [])],
        nextReceiver := b1.nextReceiver + 1)
  }

  function PublishLockedStep(b: Bus, p: Uuid, payload: string): Bus {
    if p !in b.channels then b
    else if Deserted(b, b.channels[p]) then b.(channels := b.channels - {p})
    else b.(sends := b.sends[b.nextSend := Sending(b.channels[p], ProjectEvent(p, payload))],
            nextSend := b.nextSend + 1)
  }

  function PublishSendStep(b: Bus, k: SendId): Bus {
    if k !in b.sends then b else
    var s := b.sends[k];
    var rest := b.(sends := b.sends - {k});
    if Deserted(b, s.channel) || s.channel >= |b.created| then rest
    else rest.(created := b.created[s.channel :=
                 b.created[s.channel].(log := b.created[s.channel].log + [s.event])])
  }

  // One turn of the stream's loop. A reader more than a buffer behind is moved to the oldest
  // entry still held and told to resync; a channel without senders ends the stream.
  function ReceiveStep(b: Bus, r: ReceiverId): Bus {
    if r !in b.receivers || b.receivers[r].channel >= |b.created| then b else
    var rx := b.receivers[r];
    var log := b.created[rx.channel].log;
    if |log| > rx.next + CAPACITY then
      b.(receivers := b.receivers[r := rx.(next := |log| - CAPACITY, emitted := rx.emitted + [Resync])])
    else if rx.next < |log| then
      b.(receivers := b.receivers[r := rx.(next := rx.next + 1, emitted := rx.emitted + [Change(log[rx.next])])])
    else if SendersGone(b, rx.channel) then b.(receivers := b.receivers - {r})
    else b
  }

  function Step(b: Bus, a: Action): Bus {
    match a
    case Subscribe(p) => SubscribeStep(b, p)
    case PublishLocked(p, payload) => PublishLockedStep(b, p, payload)
    case PublishSend(k) => PublishSendStep(b, k)
    case Receive(r) => ReceiveStep(b, r)
    case Drop(r) => b.(receivers := b.receivers - {r})
  }

  function Run(b: Bus, acts: seq<Action>): Bus {
    if acts == [] then b else Step(Run(b, acts[..|acts| - 1]), acts[|acts| - 1])
  }

  // --- the invariant -------------------------------------------------------

  // `out` accounts for log[from..to]: each entry is emitted in order and once, or belongs to a
  // non-empty stretch that a single `Resync` stands for, at the place of that stretch. Only
  // entries that a full buffer of later ones has overrun are ever skipped.
  ghost predicate Accounts(out: seq<Frame>, log: seq<ProjectEvent>, from: nat, to: nat) {
    && from <= to <= |log|
    && if out == [] then from == to else
       var init, last := out[..|out| - 1], out[|out| - 1];
       match last
       case Change(e) => from < to && log[to - 1] == e && Accounts(init, log, from, to - 1)
       case Resync => to + CAPACITY <= |log| && exists k: nat :: k < to && Accounts(init, log, from, k)
  }

  // The receiver sits on its project's channel, and its stream accounts for that channel's log.
  ghost predicate ReceiverOk(channels: map<Uuid, ChannelId>, created: seq<Channel>, rx: Receiver) {
    && rx.channel < |created|
    && created[rx.channel].project in channels
    && channels[created[rx.channel].project] == rx.channel
    && Accounts(rx.emitted, created[rx.channel].log, rx.start, rx.next)
  }

  ghost predicate ChannelOk(ch: Channel) {
    forall i :: 0 <= i < |ch.log| ==> ch.log[i].project == ch.project
  }

  ghost predicate SendingOk(created: seq<Channel>, s: Sending) {
    s.channel < |created| && created[s.channel].project == s.event.project
  }

  ghost predicate Inv(b: Bus) {
    && (forall p <- b.channels :: b.channels[p] < |b.created| && b.created[b.channels[p]].project == p)
    && (forall r <- b.receivers :: r < b.nextReceiver && ReceiverOk(b.channels, b.created, b.receivers[r]))
    && (forall k <- b.sends :: k < b.nextSend && SendingOk(b.created, b.sends[k]))
    && (forall c :: 0 <= c < |b.created| ==> ChannelOk(b.created[c]))
  }

  lemma {:induction false} AccountsGrows(out: seq<Frame>, log: seq<ProjectEvent>, from: nat, to: nat, e: ProjectEvent)
    requires Accounts(out, log, from, to)
    ensures Accounts(out, log + [e], from, to)
    decreases |out|
  {
    if out != [] {
      var init := out[..|out| - 1];
      match out[|out| - 1]
      case Change(_) => AccountsGrows(init, log, from, to - 1, e);
      case Resync =>
        var k: nat :| k < to && Accounts(init, log, from, k);
        AccountsGrows(init, log, from, k, e);
    }
  }

  lemma OpenedKeepsInv(b: Bus, p: Uuid)
    requires Inv(b)
    ensures Inv(Opened(b, p)) && p in Opened(b, p).channels
  {
    hide Accounts;
    var b' := Opened(b, p);
    forall r <- b.receivers ensures ReceiverOk(b'.channels, b'.created, b.receivers[r]) { }
    forall k <- b.sends ensures SendingOk(b'.created, b.sends[k]) { }
  }

  lemma SubscribeKeepsInv(b: Bus, p: Uuid)
    requires Inv(b)
    ensures Inv(SubscribeStep(b, p))
  {
    OpenedKeepsInv(b, p);
    var b1 := Opened(b, p);
    var at := |b1.created[b1.channels[p]].log|;
    assert ReceiverOk(b1.channels, b1.created, Receiver(b1.channels[p], at, at, []));
  }

  lemma PublishLockedKeepsInv(b: Bus, p: Uuid, payload: string)
    requires Inv(b)
    ensures Inv(PublishLockedStep(b, p, payload))
  {
    var b' := PublishLockedStep(b, p, payload);
    forall r <- b.receivers ensures ReceiverOk(b'.channels, b.created, b.receivers[r]) { }
  }

  lemma ReceiverOkAfterSend(
    channels: map<Uuid, ChannelId>, created: seq<Channel>, rx: Receiver, c: ChannelId, e: ProjectEvent)
    requires ReceiverOk(channels, created, rx) && c < |created|
    ensures ReceiverOk(channels, created[c := created[c].(log := created[c].log + [e])], rx)
  {
    AccountsGrows(rx.emitted, created[rx.channel].log, rx.start, rx.next, e);
  }

  lemma SendKeepsInv(b: Bus, k: SendId)
    requires Inv(b)
    ensures Inv(PublishSendStep(b, k))
  {
    var b' := PublishSendStep(b, k);
    if b'.created != b.created {
      var s := b.sends[k];
      assert SendingOk(b.created, s);
      forall r <- b.receivers ensures ReceiverOk(b'.channels, b'.created, b.receivers[r]) {
        ReceiverOkAfterSend(b.channels, b.created, b.receivers[r], s.channel, s.event);
      }
      forall j <- b.sends ensures SendingOk(b'.created, b.sends[j]) { }
    }
  }

  lemma AccountsSnoc(out: seq<Frame>, log: seq<ProjectEvent>, from: nat, to: nat, frame: Frame, to': nat)
    requires Accounts(out, log, from, to) && to < to' <= |log|
    requires frame.Change? ==> to' == to + 1 && frame.event == log[to]
    requires frame.Resync? ==> to' + CAPACITY <= |log|
    ensures Accounts(out + [frame], log, from, to')
  {
    assert (out + [frame])[..|out|] == out;
  }

  lemma ReceiveKeepsInv(b: Bus, r: ReceiverId)
    requires Inv(b)
    ensures Inv(ReceiveStep(b, r))
  {
    hide Accounts;
    var b' := ReceiveStep(b, r);
    if r in b.receivers && r in b'.receivers && b'.receivers[r] != b.receivers[r] {
      var rx, rx' := b.receivers[r], b'.receivers[r];
      AccountsSnoc(rx.emitted, b.created[rx.channel].log, rx.start, rx.next, rx'.emitted[|rx.emitted|], rx'.next);
    }
  }

  lemma StepKeepsInv(b: Bus, a: Action)
    requires Inv(b)
    ensures Inv(Step(b, a))
  {
    match a
    case Subscribe(p) => SubscribeKeepsInv(b, p);
    case PublishLocked(p, payload) => PublishLockedKeepsInv(b, p, payload);
    case PublishSend(k) => SendKeepsInv(b, k);
    case Receive(r) => ReceiveKeepsInv(b, r);
    case Drop(r) =>
  }

  lemma {:induction false} RunKeepsInv(b: Bus, acts: seq<Action>)
    requires Inv(b)
    ensures Inv(Run(b, acts))
  {
    if acts != [] {
      RunKeepsInv(b, acts[..|acts| - 1]);
      StepKeepsInv(Run(b, acts[..|acts| - 1]), acts[|acts| - 1]);
    }
  }

  // --- what a subscriber sees ----------------------------------------------

  /** In every interleaving, a live subscriber's channel is the one in the map under its project,
    * what it emitted accounts for the channel's log from its subscription to its cursor, and
    * every event it saw belongs to its project.
    */
  lemma {:induction false} SubscriberSeesTheLog(acts: seq<Action>, r: ReceiverId)
    requires r in Run(EMPTY, acts).receivers
    ensures var b := Run(EMPTY, acts); var rx := b.receivers[r];
            && rx.channel < |b.created|
            && var chan := b.created[rx.channel];
            && chan.project in b.channels && b.channels[chan.project] == rx.channel
            && Accounts(rx.emitted, chan.log, rx.start, rx.next)
            && forall i :: 0 <= i < |rx.emitted| && rx.emitted[i].Change? ==>
                 rx.emitted[i].event.project == chan.project
  {
    RunKeepsInv(EMPTY, acts);
    var b := Run(EMPTY, acts);
    var rx := b.receivers[r];
    assert ReceiverOk(b.channels, b.created, rx);
    var chan := b.created[rx.channel];
    forall i | 0 <= i < |rx.emitted| && rx.emitted[i].Change?
      ensures rx.emitted[i].event.project == chan.project
    {
      EmittedComesFromTheLog(rx.emitted, chan.log, rx.start, rx.next, i);
    }
  }

  lemma {:induction false} EmittedComesFromTheLog(
    out: seq<Frame>, log: seq<ProjectEvent>, from: nat, to: nat, i: nat)
    requires Accounts(out, log, from, to) && i < |out| && out[i].Change?
    ensures exists j: nat :: from <= j < to && log[j] == out[i].event
    decreases |out|
  {
    var last := |out| - 1;
    if out[last].Change? {
      if i == last {
        assert log[to - 1] == out[i].event;
      } else {
        EmittedComesFromTheLog(out[..last], log, from, to - 1, i);
      }
    } else {
      var k: nat :| k < to && Accounts(out[..last], log, from, k);
      EmittedComesFromTheLog(out[..last], log, from, k, i);
    }
  }

  // A stream that was never told to resync has missed nothing: it is exactly the log.
  lemma {:induction false} WithoutResyncNothingIsMissed(
    out: seq<Frame>, log: seq<ProjectEvent>, from: nat, to: nat)
    requires Accounts(out, log, from, to)
    requires Resync !in out
    ensures out == seq(to - from, i requires 0 <= i < to - from => Change(log[from + i]))
    decreases |out|
  {
    if out != [] {
      var init := out[..|out| - 1];
      assert out == init + [out[|out| - 1]];
      WithoutResyncNothingIsMissed(init, log, from, to - 1);
    }
  }

  // The converse: whatever is missing from the stream is marked. A stream that emitted fewer
  // events than the stretch it accounts for contains a `Resync`.
  lemma {:induction false} NoSilentGap(acts: seq<Action>, r: ReceiverId)
    requires r in Run(EMPTY, acts).receivers
    ensures var rx := Run(EMPTY, acts).receivers[r];
            rx.start <= rx.next && (|rx.emitted| < rx.next - rx.start ==> Resync in rx.emitted)
  {
    SubscriberSeesTheLog(acts, r);
    var b := Run(EMPTY, acts);
    var rx := b.receivers[r];
    if Resync !in rx.emitted {
      WithoutResyncNothingIsMissed(rx.emitted, b.created[rx.channel].log, rx.start, rx.next);
    }
  }

  lemma LiveHasSender(b: Bus, r: ReceiverId)
    requires Inv(b) && r in b.receivers
    ensures b.receivers[r].channel < |b.created| && !SendersGone(b, b.receivers[r].channel)
  {
    assert ReceiverOk(b.channels, b.created, b.receivers[r]);
  }

  lemma ReceiveTurn(b: Bus, r: ReceiverId)
    requires Inv(b) && r in b.receivers
    ensures var rx := b.receivers[r];
            && rx.channel < |b.created|
            && var log := b.created[rx.channel].log;
            && (|log| > rx.next + CAPACITY ==>
                  ReceiveStep(b, r)
                  == b.(receivers := b.receivers[r := rx.(next := |log| - CAPACITY, emitted := rx.emitted + [Resync])]))
            && (rx.next < |log| <= rx.next + CAPACITY ==>
                  ReceiveStep(b, r)
                  == b.(receivers := b.receivers[
                          r := rx.(next := rx.next + 1, emitted := rx.emitted + [Change(log[rx.next])])]))
            && (|log| <= rx.next ==> ReceiveStep(b, r) == b)
  {
    hide Inv, SendersGone;
    LiveHasSender(b, r);
  }

  // In every interleaving a live subscriber's channel still has a sender, so the stream never
  // ends by `Closed`: a receive removes no receiver.
  lemma {:induction false} ClosedIsUnreachable(acts: seq<Action>, r: ReceiverId)
    requires r in Run(EMPTY, acts).receivers
    ensures !SendersGone(Run(EMPTY, acts), Run(EMPTY, acts).receivers[r].channel)
    ensures forall q :: r in Run(EMPTY, acts + [Receive(q)]).receivers
  {
    SubscriberSeesTheLog(acts, r);
    forall q ensures r in Run(EMPTY, acts + [Receive(q)]).receivers {
      assert (acts + [Receive(q)])[..|acts|] == acts;
      if q == r { } else { }
    }
  }

  // --- what the others do to a receiver --------------------------------------

  // No step but its own receive or drop touches a receiver.
  lemma OthersLeaveReceiver(b: Bus, a: Action, r: ReceiverId)
    requires Inv(b) && r in b.receivers && a != Receive(r) && a != Drop(r)
    ensures r in Step(b, a).receivers && Step(b, a).receivers[r] == b.receivers[r]
  {
    hide ReceiverOk, ChannelOk, SendingOk, SendersGone;
  }

  // A receive moves the cursor by one event, or, from more than 256 behind, to 256 before the end.
  lemma ReceiveMovesOn(b: Bus, r: ReceiverId)
    requires Inv(b) && r in b.receivers
    ensures var b' := Step(b, Receive(r));
            && r in b'.receivers
            && var (rx, rx', log) := (b.receivers[r], b'.receivers[r], b.created[b.receivers[r].channel].log);
            && rx'.channel == rx.channel && rx'.start == rx.start
            && (|log| <= rx.next ==> rx' == rx)
            && (rx.next < |log| <= rx.next + 256 ==>
                  rx'.next == rx.next + 1 && rx'.emitted == rx.emitted + [Change(log[rx.next])])
            && (|log| > rx.next + 256 ==>
                  rx'.next == |log| - 256 && rx'.emitted == rx.emitted + [Resync])
  {
    hide Inv, ReceiveStep;
    ReceiveTurn(b, r);
  }

  /** Once subscribed, a receiver stays, on its channel and with its place in it, until it is
    * dropped itself; what it has emitted stays emitted.
    */
  lemma {:induction false} ReceiverStays(b: Bus, acts: seq<Action>, r: ReceiverId)
    requires Inv(b) && r in b.receivers && Drop(r) !in acts
    ensures var b' := Run(b, acts);
            && r in b'.receivers
            && b'.receivers[r].channel == b.receivers[r].channel && b'.receivers[r].start == b.receivers[r].start
            && b'.receivers[r].next >= b.receivers[r].next && b.receivers[r].emitted <= b'.receivers[r].emitted
            && (Receive(r) !in acts ==> b'.receivers[r] == b.receivers[r])
  {
    if acts != [] {
      hide Inv, Step;
      var n := |acts| - 1;
      assert acts[n] in acts;
      ReceiverStays(b, acts[..n], r);
      RunKeepsInv(b, acts[..n]);
      if acts[n] == Receive(r) {
        ReceiveMovesOn(Run(b, acts[..n]), r);
      } else {
        OthersLeaveReceiver(Run(b, acts[..n]), acts[n], r);
      }
    }
  }

  // A drop takes one receiver and nothing else.
  lemma DropTakesOne(b: Bus, r: ReceiverId)
    ensures var b' := Step(b, Drop(r));
            && r !in b'.receivers
            && (forall q: ReceiverId :: q != r ==>
                  (q in b'.receivers <==> q in b.receivers)
                  && (q in b.receivers ==> b'.receivers[q] == b.receivers[q]))
            && b'.channels == b.channels && b'.created == b.created && b'.sends == b.sends
  {
  }

  // The lock section of a publish opens nothing; it closes the project's channel exactly if nobody
  // is subscribed, and touches no other.
  lemma LockSectionLeaves(b: Bus, p: Uuid, payload: string)
    requires Inv(b)
    ensures var b' := Step(b, PublishLocked(p, payload));
            && b'.receivers == b.receivers && b'.created == b.created
            && (p in b'.channels <==> p in b.channels && !NoSubscriber(b, p))
            && forall q: Uuid | q in b'.channels || q != p ::
                 (q in b'.channels <==> q in b.channels) && (q in b.channels ==> b'.channels[q] == b.channels[q])
  {
    DesertedMeansNoSubscriber(b, p);
    hide Inv, Deserted, NoSubscriber;
  }

  // A log grows by the send of a publish to its channel, by that publish's event, and not otherwise.
  lemma LogsGrowBySends(b: Bus, a: Action, c: ChannelId)
    requires c < |b.created|
    ensures var b' := Step(b, a);
            && c < |b'.created| && b'.created[c].project == b.created[c].project
            && (b'.created[c].log == b.created[c].log
                || exists k :: a == PublishSend(k) && k in b.sends && b.sends[k].channel == c
                               && b'.created[c].log == b.created[c].log + [b.sends[k].event])
  {
    hide SendersGone;
  }

  // A publish past its lock section waits for its own send.
  lemma SendStays(b: Bus, a: Action, k: SendId)
    requires Inv(b) && k in b.sends && a != PublishSend(k)
    ensures k in Step(b, a).sends && Step(b, a).sends[k] == b.sends[k]
  {
    hide ReceiverOk, ChannelOk, SendersGone, Deserted;
  }

  // --- what a publisher can rely on ----------------------------------------

  lemma StepKeepsReceiver(b: Bus, a: Action, r: ReceiverId)
    requires r in b.receivers ==> r < b.nextReceiver
    ensures b.nextReceiver <= Step(b, a).nextReceiver
    ensures r in Step(b, a).receivers && r < b.nextReceiver ==>
              && r in b.receivers
              && Step(b, a).receivers[r].channel == b.receivers[r].channel
              && Step(b, a).receivers[r].start == b.receivers[r].start
  {
  }

  lemma StepKeepsPending(b: Bus, a: Action, k: SendId)
    requires k in b.sends && k < b.nextSend && a != PublishSend(k)
    ensures b.nextSend <= Step(b, a).nextSend
    ensures k in Step(b, a).sends && Step(b, a).sends[k] == b.sends[k]
  {
  }

  lemma {:induction false} RunKeepsReceiver(b: Bus, acts: seq<Action>, r: ReceiverId)
    requires r < b.nextReceiver
    ensures b.nextReceiver <= Run(b, acts).nextReceiver
    ensures r in Run(b, acts).receivers ==>
              && r in b.receivers
              && Run(b, acts).receivers[r].channel == b.receivers[r].channel
              && Run(b, acts).receivers[r].start == b.receivers[r].start
  {
    if acts != [] {
      var n := |acts| - 1;
      RunKeepsReceiver(b, acts[..n], r);
      StepKeepsReceiver(Run(b, acts[..n]), acts[n], r);
    }
  }

  lemma {:induction false} UnsentStaysPending(b: Bus, acts: seq<Action>, k: SendId)
    requires k in b.sends && k < b.nextSend
    requires PublishSend(k) !in acts
    ensures b.nextSend <= Run(b, acts).nextSend
    ensures k in Run(b, acts).sends && Run(b, acts).sends[k] == b.sends[k]
  {
    if acts != [] {
      var n := |acts| - 1;
      UnsentStaysPending(b, acts[..n], k);
      assert acts[n] in acts;
      StepKeepsPending(Run(b, acts[..n]), acts[n], k);
    }
  }

  // What the send does for a receiver of a channel that is the pending one.
  lemma SendReaches(b: Bus, k: SendId, r: ReceiverId)
    requires Inv(b) && k in b.sends && r in b.receivers && b.receivers[r].channel == b.sends[k].channel
    ensures var c, b' := b.sends[k].channel, PublishSendStep(b, k);
            && c < |b.created| == |b'.created|
            && b'.receivers == b.receivers
            && b'.created[c].log == b.created[c].log + [b.sends[k].event]
            && b.receivers[r].next <= |b.created[c].log|
  {
    assert SendingOk(b.created, b.sends[k]);
    assert !Deserted(b, b.sends[k].channel);
    assert ReceiverOk(b.channels, b.created, b.receivers[r]);
  }

  /** A publish whose lock section runs while `r` is subscribed to the project reaches `r`'s own
    * channel, however many steps separate its lock section from its send, if `r` is still live.
    */
  lemma {:induction false} PublishReachesItsSubscribers(
    before: seq<Action>, p: Uuid, payload: string, between: seq<Action>, r: ReceiverId)
    requires var b := Run(EMPTY, before);
             && r in b.receivers && b.receivers[r].channel < |b.created|
             && b.created[b.receivers[r].channel].project == p
    requires PublishSend(Run(EMPTY, before).nextSend) !in between
    requires r in Run(Step(Run(EMPTY, before), PublishLocked(p, payload)), between).receivers
    ensures var k := Run(EMPTY, before).nextSend;
            var b := Run(Step(Run(EMPTY, before), PublishLocked(p, payload)), between);
            var b' := Step(b, PublishSend(k));
            && k in b.sends && r in b'.receivers
            && var c := b.receivers[r].channel;
            && c < |b.created| == |b'.created|
            && b'.receivers[r] == b.receivers[r]
            && b'.created[c].log == b.created[c].log + [ProjectEvent(p, payload)]
            && b'.receivers[r].next <= |b.created[c].log|
  {
    RunKeepsInv(EMPTY, before);
    var b0 := Run(EMPTY, before);
    DesertedMeansNoSubscriber(b0, p);
    var b1 := PublishLockedStep(b0, p, payload);
    PublishLockedKeepsInv(b0, p, payload);
    UnsentStaysPending(b1, between, b0.nextSend);
    RunKeepsReceiver(b1, between, r);
    RunKeepsInv(b1, between);
    SendReaches(Run(b1, between), b0.nextSend, r);
  }

  // A publish is dropped in its lock section exactly when nobody is subscribed to the project.
  lemma {:induction false} DiscardedUnderLockIffNoSubscriber(acts: seq<Action>, p: Uuid, payload: string)
    ensures var b := Run(EMPTY, acts);
            Step(b, PublishLocked(p, payload)).sends == b.sends <==> NoSubscriber(b, p)
  {
    RunKeepsInv(EMPTY, acts);
    var b := Run(EMPTY, acts);
    DesertedMeansNoSubscriber(b, p);
    if p in b.channels && !Deserted(b, b.channels[p]) {
      assert b.nextSend in Step(b, PublishLocked(p, payload)).sends && b.nextSend !in b.sends;
    }
  }

  // A project's subscribers all sit on the channel the map holds for it.
  lemma DesertedMeansNoSubscriber(b: Bus, p: Uuid)
    requires Inv(b)
    ensures p in b.channels ==> (Deserted(b, b.channels[p]) <==> NoSubscriber(b, p))
    ensures p !in b.channels ==> NoSubscriber(b, p)
  {
    forall r <- b.receivers ensures ReceiverOk(b.channels, b.created, b.receivers[r]) { }
  }

  // Only a publish that finds the channel deserted takes a project's channel out of the map.
  lemma StepReplacesOnlyDeserted(b: Bus, a: Action, p: Uuid)
    requires Inv(b) && p in b.channels
    ensures (p in Step(b, a).channels && Step(b, a).channels[p] == b.channels[p]) || NoSubscriber(b, p)
  {
    DesertedMeansNoSubscriber(b, p);
  }

  // While a channel is pending in a publish, either it is still the project's channel or there
  // was a moment, after the lock section, at which nobody was subscribed.
  lemma {:induction false} ReplacedOnlyWhenDeserted(b: Bus, between: seq<Action>, p: Uuid, c: ChannelId)
    requires Inv(b) && p in b.channels && b.channels[p] == c
    ensures || (p in Run(b, between).channels && Run(b, between).channels[p] == c)
            || exists i: nat :: i <= |between| && NoSubscriber(Run(b, between[..i]), p)
  {
    if between != [] {
      var n := |between| - 1;
      var init := between[..n];
      ReplacedOnlyWhenDeserted(b, init, p, c);
      RunKeepsInv(b, init);
      var m := Run(b, init);
      if p in m.channels && m.channels[p] == c {
        StepReplacesOnlyDeserted(m, between[n], p);
        if NoSubscriber(m, p) {
          assert NoSubscriber(Run(b, between[..n]), p);
        }
      } else {
        var i: nat :| i <= |init| && NoSubscriber(Run(b, init[..i]), p);
        assert init[..i] == between[..i];
      }
    }
  }

  lemma {:induction false} DiscardedFrom(b0: Bus, p: Uuid, payload: string, b1: Bus, between: seq<Action>)
    requires Inv(b0) && b1 == PublishLockedStep(b0, p, payload) && b0.nextSend in b1.sends
    requires PublishSend(b0.nextSend) !in between
    requires PublishSendStep(Run(b1, between), b0.nextSend).created == Run(b1, between).created
    ensures exists i: nat :: i <= |between| && NoSubscriber(Run(b1, between[..i]), p)
  {
    hide Inv, Run, NoSubscriber, PublishSendStep;
    StepKeepsInv(b0, PublishLocked(p, payload));
    assert p in b0.channels && b1.channels == b0.channels;
    var c := b0.channels[p];
    var b := Run(b1, between);
    UnsentStaysPending(b1, between, b0.nextSend);
    RunKeepsInv(b1, between);
    if r :| r in b.receivers && b.receivers[r].channel == c {
      SendReaches(b, b0.nextSend, r);
    }
    ReplacedOnlyWhenDeserted(b1, between, p, c);
    if p in b.channels && b.channels[p] == c {
      DesertedMeansNoSubscriber(b, p);
      assert between[..|between|] == between;
    }
  }

  /** A publish that got past its lock section is lost only if, at some moment between its lock
    * section and its send, no receiver of the project was live.
    */
  lemma {:induction false} DiscardedOnlyIfDesertedMeanwhile(
    before: seq<Action>, p: Uuid, payload: string, between: seq<Action>)
    requires var b0 := Run(EMPTY, before);
             var b1 := PublishLockedStep(b0, p, payload);
             var b := Run(b1, between);
             && b0.nextSend in b1.sends
             && PublishSend(b0.nextSend) !in between
             && PublishSendStep(b, b0.nextSend).created == b.created
    ensures exists i: nat :: i <= |between| &&
              NoSubscriber(Run(PublishLockedStep(Run(EMPTY, before), p, payload), between[..i]), p)
  {
    RunKeepsInv(EMPTY, before);
    var b0 := Run(EMPTY, before);
    DiscardedFrom(b0, p, payload, PublishLockedStep(b0, p, payload), between);
  }

  lemma InvBounds(b: Bus)
    requires Inv(b)
    ensures forall p <- b.channels :: b.channels[p] < |b.created| && b.created[b.channels[p]].project == p
    ensures forall r <- b.receivers :: r < b.nextReceiver
  {
  }

  // --- the bus as an object ------------------------------------------------

  /** The bus with the channels, cursors and running publishes of the runtime around it. */
  class EventBus {
    var channels: map<Uuid, ChannelId>
    var created: seq<Channel>
    var receivers: map<ReceiverId, Receiver>
    var sends: map<SendId, Sending>
    var nextReceiver: ReceiverId
    var nextSend: SendId

    ghost function View(): Bus
      reads this
    {
      Bus(channels, created, receivers, sends, nextReceiver, nextSend)
    }

    constructor ()
      ensures View() == EMPTY && Inv(View())
    {
      channels, created, receivers, sends := map[], [], map[], map[];
      nextReceiver, nextSend := 0, 0;
    }

    method Subscribe(p: Uuid) returns (r: ReceiverId)
      requires Inv(View())
      modifies this
      ensures Inv(View()) && View() == SubscribeStep(old(View()), p)
      ensures r !in old(receivers) && r in receivers && receivers[r].emitted == []
      ensures created[receivers[r].channel].project == p
      ensures receivers[r].start == receivers[r].next == |created[receivers[r].channel].log|
      ensures forall q <- old(receivers) :: q in receivers && receivers[q] == old(receivers)[q]
    {
      hide Inv;
      SubscribeKeepsInv(View(), p);
      InvBounds(View());
      if p !in channels {
        channels := channels[p := |created|];
        created := created + [Channel(p, [])];
      }
      r := nextReceiver;
      var tail := |created[channels[p]].log|;
      receivers := receivers[r := Receiver(channels[p], tail, tail, [])];
      nextReceiver := nextReceiver + 1;
    }

    // The lock section of `publish`; `pending` says whether a send is to follow.
    method PublishLockSection(p: Uuid, payload: string) returns (pending: bool, send: SendId)
      requires Inv(View())
      modifies this
      ensures Inv(View()) && View() == PublishLockedStep(old(View()), p, payload)
      ensures pending <==> !NoSubscriber(old(View()), p)
      ensures pending ==> send in sends && sends[send].event == ProjectEvent(p, payload)
      ensures receivers == old(receivers) && created == old(created)
      ensures p in channels <==> pending
    {
      PublishLockedKeepsInv(View(), p, payload);
      DesertedMeansNoSubscriber(View(), p);
      pending, send := false, nextSend;
      if p !in channels {
        return;
      }
      var tx := channels[p];
      if forall r <- receivers :: receivers[r].channel != tx {
        channels := channels - {p};
        return;
      }
      pending := true;
      sends := sends[send := Sending(tx, ProjectEvent(p, payload))];
      nextSend := nextSend + 1;
    }

    method Send(send: SendId)
      requires Inv(View()) && send in sends
      modifies this
      ensures Inv(View()) && View() == PublishSendStep(old(View()), send)
      ensures receivers == old(receivers) && channels == old(channels) && sends == old(sends) - {send}
    {
      SendKeepsInv(View(), send);
      var s := sends[send];
      sends := sends - {send};
      if exists r <- receivers :: receivers[r].channel == s.channel {
        created := created[s.channel := created[s.channel].(log := created[s.channel].log + [s.event])];
      }
    }

    // One turn of the stream; not `ready` while there is nothing to hand out.
    method Recv(r: ReceiverId) returns (ready: bool, frame: Frame)
      requires Inv(View()) && r in receivers
      modifies this
      ensures Inv(View()) && View() == ReceiveStep(old(View()), r)
      ensures r in receivers && receivers[r].channel == old(receivers[r].channel)
      ensures ready ==> receivers[r].emitted == old(receivers[r].emitted) + [frame]
      ensures ready <==> old(receivers[r].next) < |old(created)[old(receivers[r].channel)].log|
      ensures ready ==> old(receivers[r].next) < receivers[r].next
      ensures ready ==> (frame == Resync <==>
                           |old(created)[old(receivers[r].channel)].log| > old(receivers[r].next) + 256)
      ensures forall q <- old(receivers) :: q != r ==> q in receivers && receivers[q] == old(receivers)[q]
      ensures channels == old(channels) && created == old(created) && sends == old(sends)
    {
      hide Inv, ReceiveStep;
      ghost var before := View();
      ReceiveKeepsInv(before, r);
      ReceiveTurn(before, r);
      var rx := receivers[r];
      var log := created[rx.channel].log;
      ready, frame := true, Resync;
      if |log| > rx.next + CAPACITY {
        receivers := receivers[r := rx.(next := |log| - CAPACITY, emitted := rx.emitted + [frame])];
      } else if rx.next < |log| {
        frame := Change(log[rx.next]);
        receivers := receivers[r := rx.(next := rx.next + 1, emitted := rx.emitted + [frame])];
      } else {
        ready := false;
      }
      assert View() == ReceiveStep(before, r);
    }

    method DropReceiver(r: ReceiverId)
      requires Inv(View())
      modifies this
      ensures Inv(View()) && View() == Step(old(View()), Drop(r))
      ensures r !in receivers
      ensures forall q <- old(receivers) :: q != r ==> q in receivers && receivers[q] == old(receivers)[q]
      ensures channels == old(channels) && created == old(created) && sends == old(sends)
    {
      StepKeepsInv(View(), Drop(r));
      receivers := receivers - {r};
    }
  }
}
