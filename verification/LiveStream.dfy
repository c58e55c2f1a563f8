/** The whole path of a live message: a handler checks that the client is live, later publishes the
    message on the mediator's channel, and the streaming task takes it from there and sends it on the
    connection's channel. The steps of different handlers and of the task interleave freely. */
module LiveStream {
  import opened Wrappers
  import opened Lists
  import opened Streaming
  import opened StreamingTheorems

  datatype World = World(
    task: Task,
    history: seq<Event>,       // what the task has handled
    checked: seq<Record>,      // found live, not published yet
    queue: seq<Record>,        // published, not taken yet
    log: seq<Record>)          // all that was ever published on this mediator's channel

  datatype Action =
    | Command(e: Event)
    | CheckLive(record: Record)
    | Publish(i: nat)
    | Take(open: bool)
    | Reconnect

  /** `_try_live_stream` is `CheckLive` and, if that finds the client, `Publish`. A dropped pub/sub
      connection loses what is queued. */
  function Act(uuid: string, w: World, a: Action): World {
    match a
    case Command(e) =>
      if e.PubSub? then w else w.(task := Step(uuid, w.task, e), history := w.history + [e])
    case CheckLive(record) =>
      if LiveAt(w.task.redis, record.did, record.force) == Some(uuid) then w.(checked := w.checked + [record]) else w
    case Publish(i) =>
      if i >= |w.checked| then w
      else w.(checked := w.checked[..i] + w.checked[i + 1..], queue := w.queue + [w.checked[i]],
              log := w.log + [w.checked[i]])
    case Take(open) =>
      if w.queue == [] then w
      else
        var e := PubSub(w.queue[0], open);
        w.(task := Step(uuid, w.task, e), history := w.history + [e], queue := w.queue[1..])
    case Reconnect => w.(queue := [])
  }

  function Acts(uuid: string, w: World, actions: seq<Action>): World {
    if actions == [] then w
    else Act(uuid, Acts(uuid, w, actions[..|actions| - 1]), actions[|actions| - 1])
  }

  function Begin(uuid: string, r: Redis): World {
    World(Fresh(uuid, r), [], [], [], [])
  }

  /** The task is where its history leads, and what it took and what still waits are, in order, some of
      what was published. */
  predicate Consistent(uuid: string, r: Redis, w: World) {
    w.task == Run(uuid, Fresh(uuid, r), w.history) && SubList(Taken(w.history) + w.queue, w.log)
  }

  /** One more event for the task. */
  lemma HandledKeeps(uuid: string, r: Redis, w: World, e: Event)
    ensures Taken(w.history + [e]) == Taken(w.history) + (if e.PubSub? then [e.record] else [])
    ensures w.task == Run(uuid, Fresh(uuid, r), w.history) ==>
              Step(uuid, w.task, e) == Run(uuid, Fresh(uuid, r), w.history + [e])
  {
    hide Step, Fresh;
    assert (w.history + [e])[..|w.history|] == w.history;
  }

  lemma PublishKeeps(uuid: string, r: Redis, w: World, i: nat)
    requires Consistent(uuid, r, w)
    ensures Consistent(uuid, r, Act(uuid, w, Publish(i)))
  {
    hide Step, SubList, Fresh, Run, Taken;
    if i < |w.checked| {
      AppendBoth(Taken(w.history) + w.queue, w.log, w.checked[i]);
      assert Taken(w.history) + w.queue + [w.checked[i]] == Taken(w.history) + (w.queue + [w.checked[i]]);
    }
  }

  lemma TakeKeeps(uuid: string, r: Redis, w: World, open: bool)
    requires Consistent(uuid, r, w)
    ensures Consistent(uuid, r, Act(uuid, w, Take(open)))
  {
    hide Step, SubList, Fresh, Run, Taken;
    if w.queue != [] {
      HandledKeeps(uuid, r, w, PubSub(w.queue[0], open));
      assert Taken(w.history) + w.queue == Taken(w.history) + [w.queue[0]] + w.queue[1..];
    }
  }

  lemma ReconnectKeeps(uuid: string, r: Redis, w: World)
    requires Consistent(uuid, r, w)
    ensures Consistent(uuid, r, Act(uuid, w, Reconnect))
  {
    hide Step, SubList, Fresh, Run, Taken;
    SubListPrefix(Taken(w.history), w.queue);
    SubListTrans(Taken(w.history), Taken(w.history) + w.queue, w.log);
    assert Taken(w.history) + [] == Taken(w.history);
  }

  lemma ActKeeps(uuid: string, r: Redis, w: World, a: Action)
    requires Consistent(uuid, r, w)
    ensures Consistent(uuid, r, Act(uuid, w, a))
  {
    hide Step, SubList, LiveAt, Fresh, Run, Taken;
    match a
    case Command(e) =>
      HandledKeeps(uuid, r, w, e);
      assert Taken(w.history) + [] == Taken(w.history);
    case CheckLive(record) =>
    case Publish(i) => PublishKeeps(uuid, r, w, i);
    case Take(open) => TakeKeeps(uuid, r, w, open);
    case Reconnect => ReconnectKeeps(uuid, r, w);
  }

  lemma {:induction false} AlwaysConsistent(uuid: string, r: Redis, actions: seq<Action>)
    ensures Consistent(uuid, r, Acts(uuid, Begin(uuid, r), actions))
  {
    hide Consistent, Act;
    if actions == [] {
      BeginConsistent(uuid, r);
    } else {
      AlwaysConsistent(uuid, r, actions[..|actions| - 1]);
      ActKeeps(uuid, r, Acts(uuid, Begin(uuid, r), actions[..|actions| - 1]), actions[|actions| - 1]);
    }
  }

  lemma BeginConsistent(uuid: string, r: Redis)
    ensures Consistent(uuid, r, Begin(uuid, r))
  {
  }

  /** Delivery safety over whole runs: the records sent to a connection are, in order, some of those
      published on this mediator's channel; each of them was for a DID that the connection had
      registered at that time, and was forced or sent while its client was active, however the checks,
      the publishing and the commands interleave. */
  lemma DeliverySafe(uuid: string, r: Redis, actions: seq<Action>, conn: nat)
    ensures var w := Acts(uuid, Begin(uuid, r), actions);
            var sent := Channel(w.task, conn);
            && SubList(Records(sent), w.log)
            && (forall d :: d in sent ==> d.record.force || d.active)
            && sent == Expected(w.history, conn)
  {
    hide Acts, Run, SubList, Fresh, Taken, Expected;
    AlwaysConsistent(uuid, r, actions);
    var w := Acts(uuid, Begin(uuid, r), actions);
    DeliveryExact(uuid, r, w.history, conn);
    ExpectedSafe(w.history, conn);
    SubListPrefix(Taken(w.history), w.queue);
    SubListTrans(Records(Expected(w.history, conn)), Taken(w.history), Taken(w.history) + w.queue);
    SubListTrans(Records(Expected(w.history, conn)), Taken(w.history) + w.queue, w.log);
  }

  /** Every published record was found live by its handler: at some earlier point of the run the client
      was registered with live delivery on, or delivery was forced and the index named this mediator. */
  predicate CheckedBefore(uuid: string, r: Redis, actions: seq<Action>, record: Record) {
    exists k :: && 0 <= k < |actions| && actions[k] == CheckLive(record)
                && LiveAt(Acts(uuid, Begin(uuid, r), actions[..k]).task.redis, record.did, record.force) == Some(uuid)
  }

  lemma {:induction false} PublishedWasLive(uuid: string, r: Redis, actions: seq<Action>, record: Record)
    requires var w := Acts(uuid, Begin(uuid, r), actions); record in w.log || record in w.checked
    ensures CheckedBefore(uuid, r, actions, record)
  {
    hide Step, LiveAt, Fresh;
    if actions != [] {
      var n := |actions| - 1;
      var before, a := actions[..n], actions[n];
      var w := Acts(uuid, Begin(uuid, r), before);
      if record in w.log || record in w.checked {
        PublishedWasLive(uuid, r, before, record);
        var k :| && 0 <= k < n && before[k] == CheckLive(record)
                 && LiveAt(Acts(uuid, Begin(uuid, r), before[..k]).task.redis, record.did, record.force) == Some(uuid);
        assert actions[k] == before[k] && actions[..k] == before[..k];
      } else {
        assert a == CheckLive(record) && actions[..n] == before;
        assert actions[n] == CheckLive(record);
      }
    }
  }

  /** After any run that left nothing queued: a record for a registered client that is active, or a forced one,
      is delivered on the client's connection by a check, its publishing and the task, as the next after all
      that was delivered there before. */
  lemma LiveDelivered(uuid: string, r: Redis, actions: seq<Action>, record: Record)
    requires ':' !in uuid
    requires var w := Acts(uuid, Begin(uuid, r), actions);
             && w.queue == [] && record.did in w.task.clients
             && (record.force || w.task.clients[record.did].active)
    ensures var w := Acts(uuid, Begin(uuid, r), actions);
            var client := w.task.clients[record.did];
            var w' := Acts(uuid, Begin(uuid, r), actions + [CheckLive(record)] + [Publish(|w.checked|)] + [Take(true)]);
            && Channel(w'.task, client.conn) == Channel(w.task, client.conn) + [Delivery(record, client.active)]
            && w'.task.clients == w.task.clients && w'.checked == w.checked && w'.queue == []
  {
    hide Acts, LiveAt, Run, Fresh;
    var start := Begin(uuid, r);
    var w := Acts(uuid, start, actions);
    AlwaysConsistent(uuid, r, actions);
    MemoryExact(uuid, r, w.history, record.did);
    LivenessExact(uuid, r, w.history, record.did, record.force);
    var w1 := Act(uuid, w, CheckLive(record));
    assert w1.checked == w.checked + [record];
    NextAct(uuid, start, actions, CheckLive(record));
    var w2 := Act(uuid, w1, Publish(|w.checked|));
    assert w2.queue == [record] && w2.checked == w.checked;
    NextAct(uuid, start, actions + [CheckLive(record)], Publish(|w.checked|));
    NextAct(uuid, start, actions + [CheckLive(record)] + [Publish(|w.checked|)], Take(true));
  }

  lemma NextAct(uuid: string, start: World, actions: seq<Action>, a: Action)
    ensures Acts(uuid, start, actions + [a]) == Act(uuid, Acts(uuid, start, actions), a)
  {
    hide Act;
    assert (actions + [a])[..|actions|] == actions;
  }

  /** The commands among the events of the task, and among the actions of a run. */
  function Commands(h: seq<Event>): seq<Event> {
    if h == [] then []
    else Commands(h[..|h| - 1]) + (if h[|h| - 1].PubSub? then [] else [h[|h| - 1]])
  }

  function Issued(actions: seq<Action>): seq<Event> {
    if actions == [] then []
    else
      var a := actions[|actions| - 1];
      Issued(actions[..|actions| - 1]) + (if a.Command? && !a.e.PubSub? then [a.e] else [])
  }

  lemma CommandsStep(h: seq<Event>, e: Event)
    ensures Commands(h + [e]) == Commands(h) + (if e.PubSub? then [] else [e])
  {
    assert (h + [e])[..|h|] == h;
  }

  lemma ActCommands(uuid: string, w: World, a: Action)
    ensures Commands(Act(uuid, w, a).history)
            == Commands(w.history) + (if a.Command? && !a.e.PubSub? then [a.e] else [])
  {
    hide Step, LiveAt, Commands;
    match a
    case Command(e) => CommandsStep(w.history, e);
    case Take(open) =>
      if w.queue != [] {
        CommandsStep(w.history, PubSub(w.queue[0], open));
      }
    case _ =>
  }

  /** In every run the task handles exactly the commands that were issued, in their order. */
  lemma {:induction false} CommandsHandled(uuid: string, r: Redis, actions: seq<Action>)
    ensures Commands(Acts(uuid, Begin(uuid, r), actions).history) == Issued(actions)
  {
    hide Act, Fresh;
    if actions != [] {
      CommandsHandled(uuid, r, actions[..|actions| - 1]);
      ActCommands(uuid, Acts(uuid, Begin(uuid, r), actions[..|actions| - 1]), actions[|actions| - 1]);
    }
  }
}
