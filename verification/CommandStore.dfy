/** The manager's agent registry and per-agent command queues (manager/store.go),
    and the stream senders that drain them (manager/server.go). */
module CommandStore {
  import opened Wrappers

  type AgentId = string

  const CAPACITY := 128

  /** `Nil` is the nil pointer the queue also takes; it ends the sender that
      receives it. */
  datatype Command = Command(id: nat) | Nil

  datatype AgentRecord = AgentRecord(host: string, firstSeen: int, lastSeen: int, status: string)

  /** A stream after its first batch: the agent named there, whether the handler
      still runs, and whether its sender does. */
  datatype Stream = Stream(agent: AgentId, open: bool, sending: bool)

  datatype Manager = Manager(
    agents: map<AgentId, AgentRecord>,
    queues: map<AgentId, seq<Command>>,
    streams: map<nat, Stream>)

  /** Each is one critical section or one channel operation. `Take` is a sender's
      receive, `Close` the end of the handler, `Exit` the sender noticing it: while
      a command waits, the sender's select may choose either. Which stream gets to
      run is the scheduler's choice. */
  datatype Action =
    | Register(agent: AgentId, host: string, now: int)
    | Touch(agent: AgentId, status: string, now: int)
    | Enqueue(agent: AgentId, cmd: Command)
    | FirstBatch(stream: nat, agent: AgentId, now: int)
    | Take(stream: nat)
    | Close(stream: nat)
    | Exit(stream: nat)

  const EMPTY := Manager(map[], map[], map[])

  /** The channel is made on first sight of the agent and never replaced. */
  function WithQueue(m: Manager, agent: AgentId): map<AgentId, seq<Command>> {
    if agent in m.queues then m.queues else m.queues[agent := []]
  }

  function Registered(m: Manager, agent: AgentId, host: string, now: int): AgentRecord {
    AgentRecord(host, if agent in m.agents then m.agents[agent].firstSeen else now, now, "registered")
  }

  function Touched(m: Manager, agent: AgentId, status: string, now: int): AgentRecord {
    var r := if agent in m.agents then m.agents[agent] else AgentRecord("", now, now, "");
    r.(lastSeen := now, status := if status != "" then status else r.status)
  }

  function DoTouch(m: Manager, agent: AgentId, status: string, now: int): Manager {
    m.(agents := m.agents[agent := Touched(m, agent, status, now)], queues := WithQueue(m, agent))
  }

  predicate Accepts(m: Manager, agent: AgentId) {
    agent in m.queues && |m.queues[agent]| < CAPACITY
  }

  /** A sender can receive: it still runs and its queue holds something. */
  predicate CanTake(m: Manager, stream: nat) {
    && stream in m.streams && m.streams[stream].sending
    && m.streams[stream].agent in m.queues && m.queues[m.streams[stream].agent] != []
  }

  /** An empty agent id is refused by the handlers before the store sees it. */
  function Step(m: Manager, a: Action): Manager {
    match a
    case Register(agent, host, now) =>
      if agent == "" then m
      else m.(agents := m.agents[agent := Registered(m, agent, host, now)], queues := WithQueue(m, agent))
    case Touch(agent, status, now) =>
      if agent == "" then m else DoTouch(m, agent, status, now)
    case Enqueue(agent, cmd) =>
      if Accepts(m, agent) then m.(queues := m.queues[agent := m.queues[agent] + [cmd]]) else m
    case FirstBatch(stream, agent, now) =>
      if agent == "" || stream in m.streams then m
      else
        var m' := DoTouch(m, agent, "streaming", now);
        m'.(streams := m'.streams[stream := Stream(agent, true, true)])
    case Take(stream) =>
      if CanTake(m, stream) then
        var s := m.streams[stream];
        var cmd := m.queues[s.agent][0];
        Manager(m.agents, m.queues[s.agent := m.queues[s.agent][1..]],
                if cmd == Nil then m.streams[stream := s.(sending := false)] else m.streams)
      else m
    case Close(stream) =>
      if stream in m.streams then m.(streams := m.streams[stream := m.streams[stream].(open := false)]) else m
    case Exit(stream) =>
      if stream in m.streams && !m.streams[stream].open
      then m.(streams := m.streams[stream := m.streams[stream].(sending := false)]) else m
  }

  /** The agent a step is a sign of life from, if any. */
  function HeardFrom(m: Manager, a: Action): Option<AgentId> {
    match a
    case Register(agent, _, _) => if agent == "" then None else Some(agent)
    case Touch(agent, _, _) => if agent == "" then None else Some(agent)
    case FirstBatch(stream, agent, _) => if agent == "" || stream in m.streams then None else Some(agent)
    case _ => None
  }

  /** A sign of life sets the agent's last-seen time to the step's, and its status: to
      "registered", to "streaming", or to what the heartbeat says if it says anything.
      No other step touches a record, and no step that of another agent. */
  lemma SignsOfLife(m: Manager, a: Action, agent: AgentId)
    ensures var m' := Step(m, a);
      if HeardFrom(m, a) == Some(agent) then
        && agent in m'.agents && m'.agents[agent].lastSeen == a.now
        && m'.agents[agent].firstSeen == (if agent in m.agents then m.agents[agent].firstSeen else a.now)
        && (a.Register? ==> m'.agents[agent].status == "registered" && m'.agents[agent].host == a.host)
        && (a.FirstBatch? ==> m'.agents[agent].status == "streaming")
        && (a.Touch? ==>
              m'.agents[agent].status
              == if a.status != "" then a.status else if agent in m.agents then m.agents[agent].status else "")
        && (!a.Register? ==> m'.agents[agent].host == if agent in m.agents then m.agents[agent].host else "")
      else
        (agent in m'.agents <==> agent in m.agents) && (agent in m.agents ==> m'.agents[agent] == m.agents[agent])
  {
  }

  /** Index of the last sign of life from the agent; the length of the run if there is
      none. */
  function LastHeard(run: seq<Action>, agent: AgentId): (i: nat)
    ensures i <= |run|
  {
    if run == [] then 0
    else
      var n := |run| - 1;
      if HeardFrom(Exec(run[..n]), run[n]) == Some(agent) then n
      else
        var i := LastHeard(run[..n], agent);
        if i == n then n + 1 else i
  }

  /** In every interleaving: an agent is known iff there was a sign of life from it, and
      was last seen at the last one. */
  lemma {:induction false} LastSeenIsLastHeard(run: seq<Action>, agent: AgentId)
    ensures var i := LastHeard(run, agent);
      && (agent in Exec(run).agents <==> i < |run|)
      && (i < |run| ==> HeardFrom(Exec(run[..i]), run[i]) == Some(agent) && Exec(run).agents[agent].lastSeen == run[i].now)
  {
    if run != [] {
      var n := |run| - 1;
      LastSeenIsLastHeard(run[..n], agent);
      SignsOfLife(Exec(run[..n]), run[n], agent);
      var i := LastHeard(run[..n], agent);
      assert i < n ==> run[..n][..i] == run[..i];
      hide Step;
    }
  }

  function Exec(run: seq<Action>): Manager {
    if run == [] then EMPTY else Step(Exec(run[..|run| - 1]), run[|run| - 1])
  }

  // ---- histories -------------------------------------------------------------

  function AcceptedNow(m: Manager, a: Action, agent: AgentId): seq<Command> {
    if a.Enqueue? && a.agent == agent && Accepts(m, agent) then [a.cmd] else []
  }

  /** The commands for this agent for which EnqueueCommand returned true. */
  function Accepted(run: seq<Action>, agent: AgentId): seq<Command> {
    if run == [] then []
    else Accepted(run[..|run| - 1], agent) + AcceptedNow(Exec(run[..|run| - 1]), run[|run| - 1], agent)
  }

  /** A receive: which stream got which command, and whether it was still open. */
  datatype Receipt = Receipt(stream: nat, cmd: Command, open: bool)

  function ReceivedNow(m: Manager, a: Action, agent: AgentId): seq<Receipt> {
    if a.Take? && CanTake(m, a.stream) && m.streams[a.stream].agent == agent
    then [Receipt(a.stream, m.queues[agent][0], m.streams[a.stream].open)] else []
  }

  /** What the agent's senders received, in order. */
  function Received(run: seq<Action>, agent: AgentId): seq<Receipt> {
    if run == [] then []
    else Received(run[..|run| - 1], agent) + ReceivedNow(Exec(run[..|run| - 1]), run[|run| - 1], agent)
  }

  function Commands(rs: seq<Receipt>): (s: seq<Command>)
    ensures |s| == |rs| && forall i :: 0 <= i < |rs| ==> s[i] == rs[i].cmd
  {
    if rs == [] then [] else Commands(rs[..|rs| - 1]) + [rs[|rs| - 1].cmd]
  }

  function QueueOf(m: Manager, agent: AgentId): seq<Command> {
    if agent in m.queues then m.queues[agent] else []
  }

  // ---- every interleaving ----------------------------------------------------

  /** Agents and queues have the same keys, no queue exceeds its capacity, and
      every stream's agent is known. */
  ghost predicate Sound(m: Manager) {
    && m.agents.Keys == m.queues.Keys
    && "" !in m.agents
    && (forall a :: a in m.queues ==> |m.queues[a]| <= CAPACITY)
    && (forall s :: s in m.streams ==> m.streams[s].agent in m.queues)
  }

  lemma KnownKeepsSound(m: Manager, agent: AgentId, r: AgentRecord)
    requires Sound(m) && agent != ""
    ensures Sound(m.(agents := m.agents[agent := r], queues := WithQueue(m, agent)))
    ensures agent in WithQueue(m, agent)
  {
    assert (m.agents[agent := r]).Keys == m.agents.Keys + {agent};
    assert WithQueue(m, agent).Keys == m.queues.Keys + {agent};
  }

  lemma QueueKeepsSound(m: Manager, agent: AgentId, q: seq<Command>)
    requires Sound(m) && agent in m.queues && |q| <= CAPACITY
    ensures Sound(m.(queues := m.queues[agent := q]))
  {
    assert (m.queues[agent := q]).Keys == m.queues.Keys;
  }

  lemma StreamKeepsSound(m: Manager, stream: nat, s: Stream)
    requires Sound(m) && s.agent in m.queues
    ensures Sound(m.(streams := m.streams[stream := s]))
  {
  }

  lemma SoundTells(m: Manager, agent: AgentId, stream: nat)
    requires Sound(m)
    ensures agent in m.queues ==> |m.queues[agent]| <= CAPACITY
    ensures stream in m.streams ==> m.streams[stream].agent in m.queues
  {
  }

  lemma StepKeepsSound(m: Manager, a: Action)
    requires Sound(m)
    ensures Sound(Step(m, a))
  {
    hide Sound, WithQueue, Registered, Touched;
    match a
    case Register(agent, host, now) =>
      if agent != "" {
        KnownKeepsSound(m, agent, Registered(m, agent, host, now));
      }
    case Touch(agent, status, now) =>
      if agent != "" {
        KnownKeepsSound(m, agent, Touched(m, agent, status, now));
      }
    case Enqueue(agent, cmd) =>
      if Accepts(m, agent) {
        QueueKeepsSound(m, agent, m.queues[agent] + [cmd]);
      }
    case FirstBatch(stream, agent, now) =>
      if agent != "" && stream !in m.streams {
        KnownKeepsSound(m, agent, Touched(m, agent, "streaming", now));
        StreamKeepsSound(DoTouch(m, agent, "streaming", now), stream, Stream(agent, true, true));
      }
    case Take(stream) =>
      if CanTake(m, stream) {
        var s := m.streams[stream];
        SoundTells(m, s.agent, stream);
        var m' := m.(queues := m.queues[s.agent := m.queues[s.agent][1..]]);
        QueueKeepsSound(m, s.agent, m.queues[s.agent][1..]);
        StreamKeepsSound(m', stream, s.(sending := false));
      }
    case Close(stream) =>
      if stream in m.streams {
        SoundTells(m, "", stream);
        StreamKeepsSound(m, stream, m.streams[stream].(open := false));
      }
    case Exit(stream) =>
      if stream in m.streams {
        SoundTells(m, "", stream);
        StreamKeepsSound(m, stream, m.streams[stream].(sending := false));
      }
  }

  /** An agent once seen stays registered, with its first-seen time. */
  lemma FirstSeenStays(m: Manager, a: Action, agent: AgentId)
    requires agent in m.agents
    ensures agent in Step(m, a).agents && Step(m, a).agents[agent].firstSeen == m.agents[agent].firstSeen
  {
    hide WithQueue;
  }

  lemma {:induction false} RunKeepsSound(run: seq<Action>)
    ensures Sound(Exec(run))
  {
    if run != [] {
      hide Sound, Step;
      RunKeepsSound(run[..|run| - 1]);
      StepKeepsSound(Exec(run[..|run| - 1]), run[|run| - 1]);
    }
  }

  /** One step adds at the back or takes from the front of one queue. */
  lemma StepMovesQueue(m: Manager, a: Action, agent: AgentId)
    ensures QueueOf(m, agent) + AcceptedNow(m, a, agent) == Commands(ReceivedNow(m, a, agent)) + QueueOf(Step(m, a), agent)
  {
    var q, q' := QueueOf(m, agent), QueueOf(Step(m, a), agent);
    if ReceivedNow(m, a, agent) != [] {
      assert Commands(ReceivedNow(m, a, agent)) == [q[0]];
      assert q == [q[0]] + q[1..];
    }
  }

  /** In every interleaving, with however many streams for one agent, the commands
      accepted for it are exactly those its senders received, in order, followed
      by those still queued. */
  lemma {:induction false} NoCommandIsLost(run: seq<Action>, agent: AgentId)
    ensures Accepted(run, agent) == Commands(Received(run, agent)) + QueueOf(Exec(run), agent)
  {
    if run != [] {
      var n := |run| - 1;
      NoCommandIsLost(run[..n], agent);
      var m, a := Exec(run[..n]), run[n];
      StepMovesQueue(m, a, agent);
      var was, now := Received(run[..n], agent), ReceivedNow(m, a, agent);
      assert Exec(run) == Step(m, a) && Received(run, agent) == was + now;
      assert Accepted(run, agent) == Accepted(run[..n], agent) + AcceptedNow(m, a, agent);
      hide *;
      CommandsOfSum(was, now);
      MovedAlong(Accepted(run[..n], agent), AcceptedNow(m, a, agent), Commands(was), Commands(now),
                 QueueOf(m, agent), QueueOf(Step(m, a), agent));
    }
  }

  lemma MovedAlong(acc: seq<Command>, accNow: seq<Command>, rec: seq<Command>, recNow: seq<Command>,
                   q: seq<Command>, q': seq<Command>)
    requires acc == rec + q && q + accNow == recNow + q'
    ensures acc + accNow == rec + recNow + q'
  {
    assert acc + accNow == rec + (q + accNow);
  }

  lemma CommandsOfSum(a: seq<Receipt>, b: seq<Receipt>)
    ensures Commands(a + b) == Commands(a) + Commands(b)
  {
    hide Commands;
  }

  /** So a command is refused iff its agent is unknown, or 128 commands accepted
      before it are still waiting. */
  lemma RefusedIff(run: seq<Action>, agent: AgentId)
    ensures !Accepts(Exec(run), agent)
       <==> agent !in Exec(run).agents || |Accepted(run, agent)| - |Received(run, agent)| == 128
  {
    RunKeepsSound(run);
    NoCommandIsLost(run, agent);
    hide Exec, Accepted, Received;
    assert |Commands(Received(run, agent))| == |Received(run, agent)|;
    assert agent in Exec(run).agents <==> agent in Exec(run).queues;
  }

  predicate NoneFrom(rs: seq<Receipt>, from: nat, stream: nat) {
    forall i :: from <= i < |rs| ==> rs[i].stream != stream
  }

  /** A sender that received the nil command, or noticed the end of its stream,
      receives nothing more. */
  lemma {:induction false} StoppedSenderReceivesNothing(run: seq<Action>, more: seq<Action>, stream: nat, agent: AgentId)
    requires stream in Exec(run).streams && !Exec(run).streams[stream].sending
    ensures stream in Exec(run + more).streams && !Exec(run + more).streams[stream].sending
    ensures |Received(run, agent)| <= |Received(run + more, agent)|
    ensures NoneFrom(Received(run + more, agent), |Received(run, agent)|, stream)
  {
    if more == [] {
      assert run + more == run;
    } else {
      var n := |more| - 1;
      StoppedSenderReceivesNothing(run, more[..n], stream, agent);
      assert (run + more)[..|run + more| - 1] == run + more[..n];
      var m, a := Exec(run + more[..n]), more[n];
      assert Exec(run + more) == Step(m, a);
      assert Received(run + more, agent) == Received(run + more[..n], agent) + ReceivedNow(m, a, agent);
      hide *;
      StoppedStaysStopped(m, a, stream, agent);
    }
  }

  lemma StoppedStaysStopped(m: Manager, a: Action, stream: nat, agent: AgentId)
    requires stream in m.streams && !m.streams[stream].sending
    ensures stream in Step(m, a).streams && !Step(m, a).streams[stream].sending
    ensures NoneFrom(ReceivedNow(m, a, agent), 0, stream)
  {
  }

  // ---- commands a closed stream takes ------------------------------------------

  /** The receipts of streams already closed: stream.Send fails, and its error is
      ignored. */
  function Dropped(rs: seq<Receipt>): seq<Receipt> {
    if rs == [] then []
    else Dropped(rs[..|rs| - 1]) + (if rs[|rs| - 1].open then [] else [rs[|rs| - 1]])
  }

  function Sent(rs: seq<Receipt>): seq<Receipt> {
    if rs == [] then []
    else Sent(rs[..|rs| - 1]) + (if rs[|rs| - 1].open then [rs[|rs| - 1]] else [])
  }

  function Bag(rs: seq<Receipt>): multiset<Receipt> {
    multiset(rs)
  }

  lemma {:induction false} SentOrDropped(rs: seq<Receipt>)
    ensures Bag(rs) == Bag(Sent(rs)) + Bag(Dropped(rs))
  {
    hide *;
    if rs == [] {
      NoneReceived();
    } else {
      var before, last := rs[..|rs| - 1], rs[|rs| - 1];
      SentOrDropped(before);
      SentSnoc(rs);
      assert rs == before + [last];
      BagSnoc(before, last);
      BagSnoc(Sent(before), last);
      BagSnoc(Dropped(before), last);
      OneMore(Bag(Sent(before)), Bag(Dropped(before)), last);
    }
  }

  lemma NoneReceived()
    ensures Bag([]) == Bag(Sent([])) + Bag(Dropped([]))
  {
  }

  lemma OneMore(a: multiset<Receipt>, b: multiset<Receipt>, r: Receipt)
    ensures a + b + multiset{r} == (a + multiset{r}) + b == a + (b + multiset{r})
  {
  }

  lemma SentSnoc(rs: seq<Receipt>)
    requires rs != []
    ensures var before, last := rs[..|rs| - 1], rs[|rs| - 1];
      && Sent(rs) == (if last.open then Sent(before) + [last] else Sent(before))
      && Dropped(rs) == (if last.open then Dropped(before) else Dropped(before) + [last])
  {
    var before := rs[..|rs| - 1];
    assert Sent(before) + [] == Sent(before) && Dropped(before) + [] == Dropped(before);
  }

  lemma BagSnoc(rs: seq<Receipt>, r: Receipt)
    ensures Bag(rs + [r]) == Bag(rs) + multiset{r}
  {
  }

  /** A sender stops when it receives nil, or when it notices that its stream is closed;
      it starts with the first batch of a stream, and no other step does either. */
  lemma SenderStopsIff(m: Manager, a: Action, stream: nat)
    ensures var m' := Step(m, a);
      && (Sends(m, stream) && !Sends(m', stream)
          <==> Sends(m, stream) && ((a == Exit(stream) && !m.streams[stream].open)
                                    || (a == Take(stream) && QueueOf(m, m.streams[stream].agent) != []
                                        && QueueOf(m, m.streams[stream].agent)[0] == Nil)))
      && (!Sends(m, stream) && Sends(m', stream)
          ==> a.FirstBatch? && a.stream == stream && m'.streams[stream] == Stream(a.agent, true, true))
  {
    hide Touched, Registered;
  }

  predicate Sends(m: Manager, stream: nat) {
    stream in m.streams && m.streams[stream].sending
  }

  /** Every command accepted for the agent is handed to an open stream, dropped by
      a closed one, or waits. */
  lemma SentDroppedOrQueued(run: seq<Action>, agent: AgentId)
    ensures |Accepted(run, agent)|
         == |Sent(Received(run, agent))| + |Dropped(Received(run, agent))| + |QueueOf(Exec(run), agent)|
  {
    NoCommandIsLost(run, agent);
    var rs := Received(run, agent);
    SentOrDropped(rs);
    assert |multiset(rs)| == |multiset(Sent(rs))| + |multiset(Dropped(rs))|;
    assert |Commands(rs)| == |rs|;
  }

  /** Receives of one stream, one after another. */
  function Takes(stream: nat, n: nat): (r: seq<Action>)
    ensures |r| == n && forall i :: 0 <= i < n ==> r[i] == Take(stream)
  {
    if n == 0 then [] else Takes(stream, n - 1) + [Take(stream)]
  }

  /** A stream that is closed and has a sender still running. */
  predicate Lingers(m: Manager, stream: nat, agent: AgentId) {
    stream in m.streams && m.streams[stream] == Stream(agent, false, true)
  }

  lemma LingererTakes(run: seq<Action>, stream: nat, agent: AgentId)
    requires Lingers(Exec(run), stream, agent) && QueueOf(Exec(run), agent) != []
    requires QueueOf(Exec(run), agent)[0] != Nil
    ensures var cmd := QueueOf(Exec(run), agent)[0]; var run' := run + [Take(stream)];
      && Lingers(Exec(run'), stream, agent)
      && QueueOf(Exec(run'), agent) == QueueOf(Exec(run), agent)[1..]
      && Received(run', agent) == Received(run, agent) + [Receipt(stream, cmd, false)]
  {
    assert (run + [Take(stream)])[..|run + [Take(stream)]| - 1] == run;
  }

  /** The first n of the queue q went to closed streams, and no other command
      moved. */
  predicate DroppedFirst(run: seq<Action>, run': seq<Action>, agent: AgentId, q: seq<Command>, n: nat)
    requires n <= |q|
  {
    var was, now := Received(run, agent), Received(run', agent);
    && QueueOf(Exec(run'), agent) == q[n..]
    && Sent(now) == Sent(was)
    && Commands(Dropped(now)) == Commands(Dropped(was)) + q[..n]
  }

  lemma DropsOneMore(run: seq<Action>, run': seq<Action>, stream: nat, agent: AgentId, q: seq<Command>, n: nat)
    requires n < |q| && q[n] != Nil && Lingers(Exec(run'), stream, agent) && DroppedFirst(run, run', agent, q, n)
    ensures Lingers(Exec(run' + [Take(stream)]), stream, agent)
    ensures DroppedFirst(run, run' + [Take(stream)], agent, q, n + 1)
  {
    hide Exec, QueueOf, Received, Lingers, Sent, Dropped, Commands;
    assert q[n..][0] == q[n] && q[n..][1..] == q[n + 1..];
    LingererTakes(run', stream, agent);
    DroppedSnoc(Received(run', agent), Receipt(stream, q[n], false));
    Appended(Commands(Dropped(Received(run, agent))), q, n);
  }

  lemma DropsNone(run: seq<Action>, agent: AgentId)
    ensures DroppedFirst(run, run, agent, QueueOf(Exec(run), agent), 0)
  {
    hide Exec, QueueOf, Received, Sent, Dropped, Commands;
  }

  lemma Appended(a: seq<Command>, q: seq<Command>, n: nat)
    requires n < |q|
    ensures a + q[..n] + [q[n]] == a + q[..n + 1]
  {
  }

  /** Until it notices, the sender of a closed stream can take and drop everything
      that waits: not one of those commands reaches the agent, although each was
      accepted and another stream of the agent may be open. */
  lemma {:induction false} ClosedStreamDropsAll(run: seq<Action>, stream: nat, agent: AgentId, n: nat)
    requires Lingers(Exec(run), stream, agent) && n <= |QueueOf(Exec(run), agent)|
    requires forall i :: 0 <= i < n ==> QueueOf(Exec(run), agent)[i] != Nil
    ensures Lingers(Exec(run + Takes(stream, n)), stream, agent)
    ensures DroppedFirst(run, run + Takes(stream, n), agent, QueueOf(Exec(run), agent), n)
  {
    hide Exec, QueueOf, Lingers, DroppedFirst;
    var q := QueueOf(Exec(run), agent);
    if n == 0 {
      assert run + Takes(stream, 0) == run;
      DropsNone(run, agent);
    } else {
      ClosedStreamDropsAll(run, stream, agent, n - 1);
      DropsOneMore(run, run + Takes(stream, n - 1), stream, agent, q, n - 1);
      assert run + Takes(stream, n - 1) + [Take(stream)] == run + Takes(stream, n);
    }
  }

  lemma DroppedSnoc(rs: seq<Receipt>, r: Receipt)
    requires !r.open
    ensures Sent(rs + [r]) == Sent(rs)
    ensures Commands(Dropped(rs + [r])) == Commands(Dropped(rs)) + [r.cmd]
  {
    assert (rs + [r])[..|rs|] == rs;
    assert Dropped(rs + [r]) == Dropped(rs) + [r];
  }

  class Store {
    var agents: map<AgentId, AgentRecord>
    var cmdQueue: map<AgentId, seq<Command>>

    function Snapshot(streams: map<nat, Stream>): Manager
      reads this
    {
      Manager(agents, cmdQueue, streams)
    }

    constructor ()
      ensures Snapshot(map[]) == EMPTY
    {
      agents, cmdQueue := map[], map[];
    }

    method UpsertAgentFromRegistration(agent: AgentId, host: string, now: int, ghost streams: map<nat, Stream>)
      returns (r: AgentRecord)
      requires agent != ""
      modifies this
      ensures Snapshot(streams) == Step(old(Snapshot(streams)), Register(agent, host, now))
      ensures agent in agents && r == agents[agent]
    {
      if agent !in agents {
        agents := agents[agent := AgentRecord("", now, now, "")];
      }
      r := agents[agent].(host := host, lastSeen := now, status := "registered");
      agents := agents[agent := r];
      if agent !in cmdQueue {
        cmdQueue := cmdQueue[agent := []];
      }
    }

    method TouchHeartbeat(agent: AgentId, status: string, now: int, ghost streams: map<nat, Stream>)
      returns (r: AgentRecord)
      requires agent != ""
      modifies this
      ensures Snapshot(streams) == Step(old(Snapshot(streams)), Touch(agent, status, now))
      ensures agent in agents && r == agents[agent]
    {
      if agent !in agents {
        agents := agents[agent := AgentRecord("", now, now, "")];
      }
      r := agents[agent].(lastSeen := now);
      if status != "" {
        r := r.(status := status);
      }
      agents := agents[agent := r];
      if agent !in cmdQueue {
        cmdQueue := cmdQueue[agent := []];
      }
    }

    method EnqueueCommand(agent: AgentId, cmd: Command, ghost streams: map<nat, Stream>) returns (ok: bool)
      modifies this
      ensures ok <==> Accepts(old(Snapshot(streams)), agent)
      ensures Snapshot(streams) == Step(old(Snapshot(streams)), Enqueue(agent, cmd))
    {
      if agent !in cmdQueue || |cmdQueue[agent]| >= CAPACITY {
        return false;
      }
      cmdQueue := cmdQueue[agent := cmdQueue[agent] + [cmd]];
      return true;
    }

    /** One receive of a sender goroutine; true while it goes on. */
    method SenderReceives(stream: nat, streams: map<nat, Stream>) returns (cmd: Command, sending: bool)
      requires CanTake(Snapshot(streams), stream)
      modifies this
      ensures cmd == QueueOf(old(Snapshot(streams)), streams[stream].agent)[0]
      ensures Snapshot(streams[stream := streams[stream].(sending := sending)]) == Step(old(Snapshot(streams)), Take(stream))
    {
      var agent := streams[stream].agent;
      cmd := cmdQueue[agent][0];
      cmdQueue := cmdQueue[agent := cmdQueue[agent][1..]];
      sending := cmd != Nil;
      assert sending ==> streams[stream := streams[stream].(sending := sending)] == streams;
    }
  }
}
