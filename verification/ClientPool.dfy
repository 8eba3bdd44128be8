/** The client pool of aws/s3/internal/pool/client.go: channel operations and locked counter updates are separate steps,
    interleaved in any way by any number of callers. */
module ClientPool {

  type Pid = nat
  type Client = nat

  datatype Stats = Stats(created: int, reused: int, destroyed: int, active: int, idle: int)

  /** Where a caller is between two steps. */
  datatype Pc =
    | Outside
    | GotPooled(client: Client, healthy: bool)  // Get has received from the channel; its counters are due
    | NeedNew                                   // Get will call the factory
    | GotNew(client: Client)                    // the factory has answered; its counters are due
    | Discarding                                // Put keeps the client out of the channel; its counters are due
    | Returned                                  // Put has sent to the channel; its counters are due

  /** `held` are the clients handed out by Get and not yet given to Put; `nextClient` numbers new clients. */
  datatype State = State(
    maxSize: nat,
    channel: seq<Client>,
    stats: Stats,
    pcs: map<Pid, Pc>,
    held: set<Client>,
    nextClient: nat)

  datatype Event =
    | GetReceive(pid: Pid, healthy: bool)
    | GetEmpty(pid: Pid)
    | GetCountReused(pid: Pid)
    | GetCountUnhealthy(pid: Pid)
    | GetCreate(pid: Pid, ok: bool)
    | GetCountCreated(pid: Pid)
    | PutSend(pid: Pid, client: Client)
    | PutDiscard(pid: Pid, client: Client, healthy: bool)
    | PutCountIdle(pid: Pid)
    | PutCountDestroyed(pid: Pid)

  function At(s: State, pid: Pid): Pc {
    if pid in s.pcs then s.pcs[pid] else Outside
  }

  function Goto(s: State, pid: Pid, pc: Pc): State {
    s.(pcs := if pc.Outside? then s.pcs - {pid} else s.pcs[pid := pc])
  }

  predicate Enabled(s: State, e: Event) {
    match e
    case GetReceive(pid, _) => At(s, pid).Outside? && s.channel != []
    case GetEmpty(pid) => At(s, pid).Outside? && s.channel == []
    case GetCountReused(pid) => At(s, pid).GotPooled? && At(s, pid).healthy
    case GetCountUnhealthy(pid) => At(s, pid).GotPooled? && !At(s, pid).healthy
    case GetCreate(pid, _) => At(s, pid).NeedNew?
    case GetCountCreated(pid) => At(s, pid).GotNew?
    // each client handed out is put back at most once
    case PutSend(pid, client) => At(s, pid).Outside? && client in s.held && |s.channel| < s.maxSize
    case PutDiscard(pid, client, healthy) => At(s, pid).Outside? && client in s.held && (healthy ==> |s.channel| >= s.maxSize)
    case PutCountIdle(pid) => At(s, pid).Returned?
    case PutCountDestroyed(pid) => At(s, pid).Discarding?
  }

  function Apply(s: State, e: Event): State
    requires Enabled(s, e)
  {
    match e
    case GetReceive(pid, healthy) => Goto(s, pid, GotPooled(s.channel[0], healthy)).(channel := s.channel[1..])
    case GetEmpty(pid) => Goto(s, pid, NeedNew)
    case GetCountReused(pid) =>
      Goto(s, pid, Outside).(held := s.held + {At(s, pid).client},
        stats := s.stats.(reused := s.stats.reused + 1, active := s.stats.active + 1, idle := s.stats.idle - 1))
    case GetCountUnhealthy(pid) =>
      Goto(s, pid, NeedNew).(stats := s.stats.(destroyed := s.stats.destroyed + 1, idle := s.stats.idle - 1))
    case GetCreate(pid, ok) =>
      if ok then Goto(s, pid, GotNew(s.nextClient)).(nextClient := s.nextClient + 1) else Goto(s, pid, Outside)
    case GetCountCreated(pid) =>
      Goto(s, pid, Outside).(held := s.held + {At(s, pid).client},
        stats := s.stats.(created := s.stats.created + 1, active := s.stats.active + 1))
    case PutSend(pid, client) => Goto(s, pid, Returned).(held := s.held - {client}, channel := s.channel + [client])
    case PutDiscard(pid, client, _) => Goto(s, pid, Discarding).(held := s.held - {client})
    case PutCountIdle(pid) => Goto(s, pid, Outside).(stats := s.stats.(active := s.stats.active - 1, idle := s.stats.idle + 1))
    case PutCountDestroyed(pid) =>
      Goto(s, pid, Outside).(stats := s.stats.(destroyed := s.stats.destroyed + 1, active := s.stats.active - 1))
  }

  /** A new pool has created up to half its size of clients. */
  function Start(maxSize: nat, initial: nat): State {
    State(maxSize, seq(initial, i => i), Stats(initial, 0, 0, 0, initial), map[], {}, initial)
  }

  /** The state after the events; an event that is not enabled when its turn comes does nothing. */
  function After(maxSize: nat, initial: nat, events: seq<Event>): State {
    if events == [] then Start(maxSize, initial)
    else
      var s, e := After(maxSize, initial, events[..|events| - 1]), events[|events| - 1];
      if Enabled(s, e) then Apply(s, e) else s
  }

  /******* Callers by step *******/

  ghost function Receiving(s: State): set<Pid> {
    set pid | pid in s.pcs && s.pcs[pid].GotPooled?
  }

  ghost function Sending(s: State): set<Pid> {
    set pid | pid in s.pcs && s.pcs[pid].Returned?
  }

  ghost function Dropping(s: State): set<Pid> {
    set pid | pid in s.pcs && s.pcs[pid].Discarding?
  }

  /** The client a Get is about to hand out or to destroy. */
  predicate InHand(s: State, pid: Pid) {
    pid in s.pcs && (s.pcs[pid].GotPooled? || s.pcs[pid].GotNew?)
  }

  predicate Known(s: State, c: Client) {
    c < s.nextClient && c !in s.held && c !in s.channel
  }

  /** No client is in two places: in the channel, in a Get, or handed out. */
  ghost predicate ClientsDistinct(s: State) {
    && NoRepeats(s.channel)
    && (forall c :: c in s.channel ==> c !in s.held && c < s.nextClient)
    && (forall c :: c in s.held ==> c < s.nextClient)
    && (forall pid :: InHand(s, pid) ==> Known(s, s.pcs[pid].client))
    && (forall p, q :: InHand(s, p) && InHand(s, q) && p != q ==> s.pcs[p].client != s.pcs[q].client)
  }

  ghost predicate NoRepeats(channel: seq<Client>) {
    forall i, j :: 0 <= i < j < |channel| ==> channel[i] != channel[j]
  }

  /** The counters agree with the channel and the clients handed out, up to the updates still due. */
  ghost predicate Counted(s: State) {
    && s.stats.created == s.stats.active + s.stats.idle + s.stats.destroyed
    && s.stats.idle == |s.channel| + |Receiving(s)| - |Sending(s)|
    && s.stats.active == |s.held| + |Sending(s)| + |Dropping(s)|
    && |s.channel| <= s.maxSize
  }

  ghost predicate Inv(s: State) {
    ClientsDistinct(s) && Counted(s)
  }

  ghost predicate Quiescent(s: State) {
    s.pcs == map[]
  }

  lemma HeadAndTail(channel: seq<Client>)
    requires channel != [] && NoRepeats(channel)
    ensures NoRepeats(channel[1..]) && channel[0] !in channel[1..]
    ensures forall c :: c in channel <==> c == channel[0] || c in channel[1..]
  {
    assert channel == [channel[0]] + channel[1..];
  }

  lemma ReceiveKeepsDistinct(s: State, e: Event)
    requires ClientsDistinct(s) && Enabled(s, e) && e.GetReceive?
    ensures ClientsDistinct(Apply(s, e))
  {
    HeadAndTail(s.channel);
    var t := Apply(s, e);
    forall pid | InHand(t, pid)
      ensures Known(t, t.pcs[pid].client) && (pid != e.pid ==> t.pcs[pid].client != t.pcs[e.pid].client)
    {
      if pid != e.pid {
        assert InHand(s, pid);
      }
    }
    forall p, q | InHand(t, p) && InHand(t, q) && p != q
      ensures t.pcs[p].client != t.pcs[q].client
    {
      assert p != e.pid && q != e.pid ==> InHand(s, p) && InHand(s, q);
    }
  }

  /** A step that takes a client out of a Get, handing it out or not. */
  lemma LeaveKeepsDistinct(s: State, pid: Pid, pc: Pc, handOut: bool)
    requires ClientsDistinct(s) && (pc.Outside? || pc.NeedNew?) && (handOut ==> InHand(s, pid))
    ensures var t := Goto(s, pid, pc);
            ClientsDistinct(if handOut then t.(held := s.held + {s.pcs[pid].client}) else t)
  {
    var t := Goto(s, pid, pc);
    assert forall p :: InHand(t, p) ==> p != pid && InHand(s, p);
  }

  lemma CreateKeepsDistinct(s: State, e: Event)
    requires ClientsDistinct(s) && Enabled(s, e) && e.GetCreate? && e.ok
    ensures ClientsDistinct(Apply(s, e))
  {
    var t := Apply(s, e);
    assert forall p :: InHand(t, p) ==> p == e.pid || InHand(s, p);
  }

  /** A Put takes the client back before it decides where it goes. */
  lemma PutKeepsDistinct(s: State, e: Event)
    requires ClientsDistinct(s) && Enabled(s, e) && (e.PutSend? || e.PutDiscard?)
    ensures ClientsDistinct(Apply(s, e))
  {
    var t := Apply(s, e);
    assert forall p :: InHand(t, p) <==> p != e.pid && InHand(s, p);
    assert e.PutSend? ==> t.channel[..|s.channel|] == s.channel && forall i :: 0 <= i < |s.channel| ==> s.channel[i] in s.channel;
  }

  lemma KeepsDistinct(s: State, e: Event)
    requires ClientsDistinct(s) && Enabled(s, e)
    ensures ClientsDistinct(Apply(s, e))
  {
    match e
    case GetReceive(_, _) => ReceiveKeepsDistinct(s, e);
    case GetEmpty(pid) => LeaveKeepsDistinct(s, pid, NeedNew, false);
    case GetCountReused(pid) => LeaveKeepsDistinct(s, pid, Outside, true);
    case GetCountUnhealthy(pid) => LeaveKeepsDistinct(s, pid, NeedNew, false);
    case GetCreate(pid, ok) => if ok { CreateKeepsDistinct(s, e); } else { LeaveKeepsDistinct(s, pid, Outside, false); }
    case GetCountCreated(pid) => LeaveKeepsDistinct(s, pid, Outside, true);
    case PutSend(_, _) => PutKeepsDistinct(s, e);
    case PutDiscard(_, _, _) => PutKeepsDistinct(s, e);
    case PutCountIdle(pid) => LeaveKeepsDistinct(s, pid, Outside, false);
    case PutCountDestroyed(pid) => LeaveKeepsDistinct(s, pid, Outside, false);
  }

  /** How one caller's move changes the sets of callers. */
  lemma GotoSets(s: State, pid: Pid, pc: Pc)
    ensures var t := Goto(s, pid, pc);
            && Receiving(t) == (if pc.GotPooled? then Receiving(s) + {pid} else Receiving(s) - {pid})
            && Sending(t) == (if pc.Returned? then Sending(s) + {pid} else Sending(s) - {pid})
            && Dropping(t) == (if pc.Discarding? then Dropping(s) + {pid} else Dropping(s) - {pid})
    ensures pid in Receiving(s) <==> At(s, pid).GotPooled?
    ensures pid in Sending(s) <==> At(s, pid).Returned?
    ensures pid in Dropping(s) <==> At(s, pid).Discarding?
  {
  }

  function One(b: bool): int {
    if b then 1 else 0
  }

  lemma GotoCounts(s: State, pid: Pid, pc: Pc)
    ensures var t := Goto(s, pid, pc);
            && |Receiving(t)| == |Receiving(s)| + One(pc.GotPooled?) - One(At(s, pid).GotPooled?)
            && |Sending(t)| == |Sending(s)| + One(pc.Returned?) - One(At(s, pid).Returned?)
            && |Dropping(t)| == |Dropping(s)| + One(pc.Discarding?) - One(At(s, pid).Discarding?)
  {
    GotoSets(s, pid, pc);
    WithAndWithout(Receiving(s), pid);
    WithAndWithout(Sending(s), pid);
    WithAndWithout(Dropping(s), pid);
  }

  lemma WithAndWithout(pids: set<Pid>, pid: Pid)
    ensures |pids + {pid}| == |pids| + One(pid !in pids)
    ensures |pids - {pid}| == |pids| - One(pid in pids)
  {
    if pid in pids {
      assert pids + {pid} == pids;
    } else {
      assert pids - {pid} == pids;
    }
  }

  ghost predicate Moves(s: State, t: State, pid: Pid, pc: Pc) {
    t.pcs == Goto(s, pid, pc).pcs && t.maxSize == s.maxSize
  }

  lemma MovesCounts(s: State, t: State, pid: Pid, pc: Pc)
    requires Counted(s) && Moves(s, t, pid, pc)
    requires t.stats.created - s.stats.created ==
               (t.stats.active - s.stats.active) + (t.stats.idle - s.stats.idle) + (t.stats.destroyed - s.stats.destroyed)
    requires t.stats.idle - s.stats.idle ==
               |t.channel| - |s.channel| + One(pc.GotPooled?) - One(At(s, pid).GotPooled?) - One(pc.Returned?) + One(At(s, pid).Returned?)
    requires t.stats.active - s.stats.active ==
               |t.held| - |s.held| + One(pc.Returned?) - One(At(s, pid).Returned?) + One(pc.Discarding?) - One(At(s, pid).Discarding?)
    requires |t.channel| <= t.maxSize
    ensures Counted(t)
  {
    GotoCounts(s, pid, pc);
    var u := Goto(s, pid, pc);
    assert Receiving(t) == Receiving(u) && Sending(t) == Sending(u) && Dropping(t) == Dropping(u);
  }

  lemma GetKeepsCounted(s: State, e: Event)
    requires Counted(s) && Enabled(s, e) && (e.GetReceive? || e.GetEmpty? || e.GetCountUnhealthy? || e.GetCreate?)
    ensures Counted(Apply(s, e))
  {
    var t := Apply(s, e);
    match e
    case GetReceive(pid, healthy) => MovesCounts(s, t, pid, GotPooled(s.channel[0], healthy));
    case GetEmpty(pid) => MovesCounts(s, t, pid, NeedNew);
    case GetCountUnhealthy(pid) => MovesCounts(s, t, pid, NeedNew);
    case GetCreate(pid, ok) => MovesCounts(s, t, pid, if ok then GotNew(s.nextClient) else Outside);
  }

  lemma HandOutKeepsCounted(s: State, e: Event)
    requires Inv(s) && Enabled(s, e) && (e.GetCountReused? || e.GetCountCreated?)
    ensures Counted(Apply(s, e))
  {
    assert InHand(s, e.pid) && Known(s, s.pcs[e.pid].client);
    MovesCounts(s, Apply(s, e), e.pid, Outside);
  }

  lemma PutKeepsCounted(s: State, e: Event)
    requires Counted(s) && Enabled(s, e) && (e.PutSend? || e.PutDiscard? || e.PutCountIdle? || e.PutCountDestroyed?)
    ensures Counted(Apply(s, e))
  {
    var t := Apply(s, e);
    match e
    case PutSend(pid, _) => MovesCounts(s, t, pid, Returned);
    case PutDiscard(pid, _, _) => MovesCounts(s, t, pid, Discarding);
    case PutCountIdle(pid) => MovesCounts(s, t, pid, Outside);
    case PutCountDestroyed(pid) => MovesCounts(s, t, pid, Outside);
  }

  lemma KeepsCounted(s: State, e: Event)
    requires Inv(s) && Enabled(s, e)
    ensures Counted(Apply(s, e))
  {
    if e.GetReceive? || e.GetEmpty? || e.GetCountUnhealthy? || e.GetCreate? {
      GetKeepsCounted(s, e);
    } else if e.GetCountReused? || e.GetCountCreated? {
      HandOutKeepsCounted(s, e);
    } else {
      PutKeepsCounted(s, e);
    }
  }

  /******* Over every run *******/

  /** Every locked update leaves created = active + idle + destroyed, and idle is the channel's length plus the receives and
      less the sends that are not counted yet. */
  lemma {:induction false} RunInv(maxSize: nat, initial: nat, events: seq<Event>)
    requires initial <= maxSize
    ensures Inv(After(maxSize, initial, events))
  {
    if events == [] {
      var s := Start(maxSize, initial);
      assert Receiving(s) == {} && Sending(s) == {} && Dropping(s) == {};
    } else {
      var s, e := After(maxSize, initial, events[..|events| - 1]), events[|events| - 1];
      RunInv(maxSize, initial, events[..|events| - 1]);
      if Enabled(s, e) {
        KeepsDistinct(s, e);
        KeepsCounted(s, e);
      }
    }
  }

  lemma {:induction false} SizeStays(maxSize: nat, initial: nat, events: seq<Event>)
    ensures After(maxSize, initial, events).maxSize == maxSize
  {
    if events != [] {
      SizeStays(maxSize, initial, events[..|events| - 1]);
    }
  }

  /** With no call under way, Idle is the channel's length and at most the pool's size, and Active is the number of clients
      handed out. */
  lemma QuiescentCounts(maxSize: nat, initial: nat, events: seq<Event>)
    requires initial <= maxSize && Quiescent(After(maxSize, initial, events))
    ensures var s := After(maxSize, initial, events);
            && s.stats.idle == |s.channel| <= maxSize
            && s.stats.active == |s.held|
            && s.stats.created == |s.held| + |s.channel| + s.stats.destroyed
  {
    RunInv(maxSize, initial, events);
    SizeStays(maxSize, initial, events);
    var s := After(maxSize, initial, events);
    assert Receiving(s) == {} && Sending(s) == {} && Dropping(s) == {};
  }

  /** A client that Get is about to hand out is with no one else, and not in the channel. */
  lemma HandedOutOnce(maxSize: nat, initial: nat, events: seq<Event>, p: Pid, q: Pid)
    requires initial <= maxSize
    requires InHand(After(maxSize, initial, events), p)
    ensures var s := After(maxSize, initial, events);
            && s.pcs[p].client !in s.held && s.pcs[p].client !in s.channel
            && (InHand(s, q) && p != q ==> s.pcs[p].client != s.pcs[q].client)
  {
    RunInv(maxSize, initial, events);
    assert Known(After(maxSize, initial, events), After(maxSize, initial, events).pcs[p].client);
  }

  /******* What has happened *******/

  /** The events that were enabled when their turn came. */
  function Happened(maxSize: nat, initial: nat, events: seq<Event>): seq<Event> {
    if events == [] then []
    else
      var s, e := After(maxSize, initial, events[..|events| - 1]), events[|events| - 1];
      Happened(maxSize, initial, events[..|events| - 1]) + if Enabled(s, e) then [e] else []
  }

  function Times(log: seq<Event>, kind: Event -> bool): nat {
    if log == [] then 0 else Times(log[..|log| - 1], kind) + if kind(log[|log| - 1]) then 1 else 0
  }

  lemma TimesSnoc(log: seq<Event>, e: Event, kind: Event -> bool)
    ensures Times(log + [e], kind) == Times(log, kind) + One(kind(e))
  {
    assert (log + [e])[..|log|] == log;
  }

  const FoundHealthy := (e: Event) => e.GetReceive? && e.healthy
  const FoundUnhealthy := (e: Event) => e.GetReceive? && !e.healthy
  const Made := (e: Event) => e.GetCreate? && e.ok
  const Sent := (e: Event) => e.PutSend?
  const ThrownAway := (e: Event) => e.PutDiscard?

  ghost function Reusing(s: State): set<Pid> {
    set pid | pid in s.pcs && s.pcs[pid].GotPooled? && s.pcs[pid].healthy
  }

  ghost function Refusing(s: State): set<Pid> {
    set pid | pid in s.pcs && s.pcs[pid].GotPooled? && !s.pcs[pid].healthy
  }

  ghost function Creating(s: State): set<Pid> {
    set pid | pid in s.pcs && s.pcs[pid].GotNew?
  }

  predicate Healthy(pc: Pc) {
    pc.GotPooled? && pc.healthy
  }

  predicate Unhealthy(pc: Pc) {
    pc.GotPooled? && !pc.healthy
  }

  lemma GotoReusing(s: State, pid: Pid, pc: Pc)
    ensures |Reusing(Goto(s, pid, pc))| == |Reusing(s)| + One(Healthy(pc)) - One(Healthy(At(s, pid)))
  {
    WithAndWithout(Reusing(s), pid);
    assert Reusing(Goto(s, pid, pc)) == if Healthy(pc) then Reusing(s) + {pid} else Reusing(s) - {pid};
  }

  lemma GotoRefusing(s: State, pid: Pid, pc: Pc)
    ensures |Refusing(Goto(s, pid, pc))| == |Refusing(s)| + One(Unhealthy(pc)) - One(Unhealthy(At(s, pid)))
  {
    WithAndWithout(Refusing(s), pid);
    assert Refusing(Goto(s, pid, pc)) == if Unhealthy(pc) then Refusing(s) + {pid} else Refusing(s) - {pid};
  }

  lemma GotoCreating(s: State, pid: Pid, pc: Pc)
    ensures |Creating(Goto(s, pid, pc))| == |Creating(s)| + One(pc.GotNew?) - One(At(s, pid).GotNew?)
  {
    WithAndWithout(Creating(s), pid);
    assert Creating(Goto(s, pid, pc)) == if pc.GotNew? then Creating(s) + {pid} else Creating(s) - {pid};
  }

  /** The counters and the channel say what has happened, up to the updates still due. */
  ghost predicate Tallied(s: State, initial: nat, log: seq<Event>) {
    && s.stats.created + |Creating(s)| == initial + Times(log, Made)
    && s.stats.reused + |Reusing(s)| == Times(log, FoundHealthy)
    && s.stats.destroyed + |Refusing(s)| + |Dropping(s)| == Times(log, FoundUnhealthy) + Times(log, ThrownAway)
    && |s.channel| == initial + Times(log, Sent) - Times(log, FoundHealthy) - Times(log, FoundUnhealthy)
  }

  /** Where an event brings its caller. */
  function NextPc(s: State, e: Event): Pc
    requires Enabled(s, e)
  {
    match e
    case GetReceive(_, healthy) => GotPooled(s.channel[0], healthy)
    case GetEmpty(_) => NeedNew
    case GetCountUnhealthy(_) => NeedNew
    case GetCreate(_, ok) => if ok then GotNew(s.nextClient) else Outside
    case PutSend(_, _) => Returned
    case PutDiscard(_, _, _) => Discarding
    case _ => Outside
  }

  lemma DueAfter(s: State, e: Event)
    requires Enabled(s, e)
    ensures var t, pc, next := Apply(s, e), At(s, e.pid), NextPc(s, e);
            && |Reusing(t)| == |Reusing(s)| + One(Healthy(next)) - One(Healthy(pc))
            && |Refusing(t)| == |Refusing(s)| + One(Unhealthy(next)) - One(Unhealthy(pc))
            && |Creating(t)| == |Creating(s)| + One(next.GotNew?) - One(pc.GotNew?)
            && |Dropping(t)| == |Dropping(s)| + One(next.Discarding?) - One(pc.Discarding?)
  {
    var t, u := Apply(s, e), Goto(s, e.pid, NextPc(s, e));
    GotoReusing(s, e.pid, NextPc(s, e));
    GotoRefusing(s, e.pid, NextPc(s, e));
    GotoCreating(s, e.pid, NextPc(s, e));
    GotoCounts(s, e.pid, NextPc(s, e));
    assert t.pcs == u.pcs;
    assert Reusing(t) == Reusing(u) && Refusing(t) == Refusing(u) && Creating(t) == Creating(u) && Dropping(t) == Dropping(u);
  }

  lemma KeepsTallied(s: State, e: Event, initial: nat, log: seq<Event>)
    requires Tallied(s, initial, log) && Enabled(s, e)
    ensures Tallied(Apply(s, e), initial, log + [e])
  {
    DueAfter(s, e);
    TimesSnoc(log, e, Made);
    TimesSnoc(log, e, FoundHealthy);
    TimesSnoc(log, e, FoundUnhealthy);
    TimesSnoc(log, e, ThrownAway);
    TimesSnoc(log, e, Sent);
  }

  lemma {:induction false} RunTallied(maxSize: nat, initial: nat, events: seq<Event>)
    ensures Tallied(After(maxSize, initial, events), initial, Happened(maxSize, initial, events))
  {
    if events == [] {
      var s := Start(maxSize, initial);
      assert Reusing(s) == {} && Refusing(s) == {} && Creating(s) == {} && Dropping(s) == {};
    } else {
      var front := events[..|events| - 1];
      RunTallied(maxSize, initial, front);
      var s, e := After(maxSize, initial, front), events[|events| - 1];
      var log := Happened(maxSize, initial, front);
      assert log + [] == log;
      if Enabled(s, e) {
        KeepsTallied(s, e, initial, log);
      }
    }
  }

  /** With no call under way, Created counts the clients made, Reused those received and found healthy, and Destroyed those
      found unhealthy and those thrown away. */
  lemma QuiescentTells(maxSize: nat, initial: nat, events: seq<Event>)
    requires Quiescent(After(maxSize, initial, events))
    ensures var s, log := After(maxSize, initial, events), Happened(maxSize, initial, events);
            && s.stats.created == initial + Times(log, Made)
            && s.stats.reused == Times(log, FoundHealthy)
            && s.stats.destroyed == Times(log, FoundUnhealthy) + Times(log, ThrownAway)
            && |s.channel| == initial + Times(log, Sent) - Times(log, FoundHealthy) - Times(log, FoundUnhealthy)
  {
    RunTallied(maxSize, initial, events);
    var s := After(maxSize, initial, events);
    assert Reusing(s) == {} && Refusing(s) == {} && Creating(s) == {} && Dropping(s) == {};
  }

  /** A client that was found unhealthy, and may be about to be counted as destroyed. */
  ghost predicate Gone(s: State, c: Client) {
    && Known(s, c)
    && forall pid :: InHand(s, pid) && s.pcs[pid].client == c ==> Unhealthy(s.pcs[pid])
  }

  lemma GoneOn(s: State, e: Event, c: Client)
    requires ClientsDistinct(s) && Enabled(s, e) && Gone(s, c)
    ensures Gone(Apply(s, e), c)
  {
    var t := Apply(s, e);
    forall pid | InHand(t, pid) && t.pcs[pid].client == c
      ensures Unhealthy(t.pcs[pid])
    {
      assert pid != e.pid ==> InHand(s, pid);
    }
    if e.GetCountReused? || e.GetCountCreated? {
      assert InHand(s, e.pid);
    }
  }

  /** A client that a Get has found unhealthy, or that a Put has thrown away, is never handed out or pooled again. */
  lemma {:induction false} NeverAgain(maxSize: nat, initial: nat, events: seq<Event>, k: nat, c: Client)
    requires initial <= maxSize && k < |events|
    requires var s, e := After(maxSize, initial, events[..k]), events[k];
             Enabled(s, e) && ((FoundUnhealthy(e) && s.channel[0] == c) || (ThrownAway(e) && e.client == c))
    ensures Gone(After(maxSize, initial, events), c)
    decreases |events|
  {
    var n := |events| - 1;
    var s, e := After(maxSize, initial, events[..n]), events[n];
    RunInv(maxSize, initial, events[..n]);
    if k == n {
      GoneNow(s, e, c);
    } else {
      assert events[..n][..k] == events[..k];
      NeverAgain(maxSize, initial, events[..n], k, c);
      if Enabled(s, e) {
        GoneOn(s, e, c);
      }
    }
  }

  lemma GoneNow(s: State, e: Event, c: Client)
    requires ClientsDistinct(s) && Enabled(s, e)
    requires (FoundUnhealthy(e) && s.channel[0] == c) || (ThrownAway(e) && e.client == c)
    ensures Gone(Apply(s, e), c)
  {
    var t := Apply(s, e);
    KeepsDistinct(s, e);
    assert FoundUnhealthy(e) ==> InHand(t, e.pid) && t.pcs[e.pid].client == c;
    assert forall pid :: InHand(s, pid) ==> Known(s, s.pcs[pid].client) && s.pcs[pid].client != c;
    assert forall pid :: InHand(t, pid) && pid != e.pid ==> InHand(s, pid) && t.pcs[pid] == s.pcs[pid];
  }

  /** A healthy client that is put back goes to the channel, unless that is full; a Get makes a client only when the channel is
      empty or what it received is unhealthy; and every call can go on. */
  lemma ChoicesExactly(maxSize: nat, initial: nat, events: seq<Event>, pid: Pid, c: Client)
    requires initial <= maxSize
    ensures var s := After(maxSize, initial, events);
            && (pid !in s.pcs && c in s.held ==>
                  if |s.channel| == maxSize then Enabled(s, PutDiscard(pid, c, true)) && !Enabled(s, PutSend(pid, c))
                  else Enabled(s, PutSend(pid, c)) && !Enabled(s, PutDiscard(pid, c, true)))
            && (pid !in s.pcs ==> if s.channel == [] then Enabled(s, GetEmpty(pid)) else !Enabled(s, GetEmpty(pid)))
  {
    RunInv(maxSize, initial, events);
    SizeStays(maxSize, initial, events);
  }
}
