/** The life of a websocket connection: it registers with the streaming task, counts itself open,
    serves, deregisters, and counts itself closed; and the accounting over many connections at once. */
module Sockets {
  import opened Wrappers
  import opened Streaming

  // ----- The steps of a handler -----

  /** Where a handler is: before registering, before counting itself open, in its loop, after it, after
      deregistering, and done. `Failed` could not register. */
  datatype Phase = Connecting | Registered | Serving | Leaving | Deregistered | Done | Failed

  datatype Effect = SentRegister | CountedOpen | SentDeregister | CountedClosed

  /** The effects that a handler has had when it is in a phase, in their order. */
  function PathTo(p: Phase, streaming: bool): seq<Effect> {
    match p
    case Connecting => []
    case Failed => []
    case Registered => if streaming then [SentRegister] else []
    case Serving => if streaming then [SentRegister, CountedOpen] else [CountedOpen]
    case Leaving => if streaming then [SentRegister, CountedOpen] else [CountedOpen]
    case Deregistered => if streaming then [SentRegister, CountedOpen, SentDeregister] else [CountedOpen]
    case Done =>
      if streaming then [SentRegister, CountedOpen, SentDeregister, CountedClosed] else [CountedOpen, CountedClosed]
  }

  // ----- One connection -----

  /** What the loop of a connection sees next. Handling a text may turn live delivery on or off. */
  datatype Input =
    | Text(size: nat, live: Option<bool>)
    | NonText
    | SocketError
    | SocketClosed
    | FromTask(message: string)
    | TaskDropped

  /** The inputs that end the loop: a text over the limit, or the end of either stream. */
  predicate Ends(input: Input, limit: nat) {
    match input
    case Text(size, _) => size > limit
    case SocketClosed => true
    case TaskDropped => true
    case _ => false
  }

  /** The inputs before the one that ends the loop. */
  function Served(inputs: seq<Input>, limit: nat): (r: seq<Input>)
    ensures |r| <= |inputs|
  {
    if inputs == [] || Ends(inputs[0], limit) then [] else [inputs[0]] + Served(inputs[1..], limit)
  }

  predicate Ended(inputs: seq<Input>, limit: nat) {
    |Served(inputs, limit)| < |inputs|
  }

  /** The loop serves everything before the first text over the limit or end of a stream: a text within the
      limit, whatever handling it yields, and any other input keep the connection open. */
  lemma {:induction false} ServedExact(inputs: seq<Input>, limit: nat)
    ensures var n := |Served(inputs, limit)|;
            && Served(inputs, limit) == inputs[..n]
            && (Ended(inputs, limit) ==>
                  inputs[n] in [SocketClosed, TaskDropped] || (inputs[n].Text? && limit < inputs[n].size))
            && forall i :: 0 <= i < n ==>
                 || inputs[i] in [NonText, SocketError] || inputs[i].FromTask?
                 || (inputs[i].Text? && inputs[i].size <= limit)
  {
    if inputs != [] && !Ends(inputs[0], limit) {
      ServedExact(inputs[1..], limit);
      assert forall i :: 0 < i < |Served(inputs, limit)| ==> inputs[i] == inputs[1..][i - 1];
    }
  }

  /** What the task sent and the connection passes on to its socket. */
  function Passed(inputs: seq<Input>): seq<string> {
    if inputs == [] then []
    else (if inputs[0].FromTask? then [inputs[0].message] else []) + Passed(inputs[1..])
  }

  /** The command that a text of a client may lead to. */
  function Toggle(input: Input, did: string): seq<Event> {
    match input
    case Text(_, Some(live)) => [if live then Start(did) else Stop(did)]
    case _ => []
  }

  function Toggles(inputs: seq<Input>, did: string): seq<Event> {
    if inputs == [] then [] else Toggle(inputs[0], did) + Toggles(inputs[1..], did)
  }

  /** What the handlers share: the streaming task's command channel, if there is a task, the two
      counters, and the log of their effects in the order in which they happen. */
  class Mediator {
    const streaming: bool
    var sent: seq<Event>
    var opens: nat
    var closes: nat
    var log: seq<(nat, Effect)>

    constructor (streaming: bool)
      ensures this.streaming == streaming && sent == [] && log == [] && opens == 0 && closes == 0
    {
      this.streaming := streaming;
      sent, opens, closes, log := [], 0, 0, [];
    }

    method SendRegister(h: nat, did: string)
      modifies this
      ensures sent == old(sent) + [Register(did, h)] && log == old(log) + [(h, SentRegister)]
      ensures opens == old(opens) && closes == old(closes)
    {
      sent := sent + [Register(did, h)];
      log := log + [(h, SentRegister)];
    }

    /** `global_stats_increment_websocket_open` */
    method CountOpen(h: nat)
      modifies this
      ensures opens == old(opens) + 1 && log == old(log) + [(h, CountedOpen)]
      ensures sent == old(sent) && closes == old(closes)
    {
      opens := opens + 1;
      log := log + [(h, CountedOpen)];
    }

    method SendDeregister(h: nat, did: string)
      modifies this
      ensures sent == old(sent) + [Deregister(did)] && log == old(log) + [(h, SentDeregister)]
      ensures opens == old(opens) && closes == old(closes)
    {
      sent := sent + [Deregister(did)];
      log := log + [(h, SentDeregister)];
    }

    /** `global_stats_increment_websocket_close` */
    method CountClosed(h: nat)
      modifies this
      ensures closes == old(closes) + 1 && log == old(log) + [(h, CountedClosed)]
      ensures sent == old(sent) && opens == old(opens)
    {
      closes := closes + 1;
      log := log + [(h, CountedClosed)];
    }
  }

  /** Where a handler is after these inputs; `accepts` tells if its registration is taken. */
  function PhaseAfter(streaming: bool, accepts: bool, inputs: seq<Input>, limit: nat): Phase {
    if streaming && !accepts then Failed
    else if Ended(inputs, limit) then Done
    else Serving
  }

  /** The commands of a handler on its way to a phase, after serving some inputs. */
  function SentBy(p: Phase, streaming: bool, did: string, h: nat, served: seq<Input>): seq<Event> {
    if p == Failed || !streaming then []
    else [Register(did, h)] + Toggles(served, did) + (if p == Done then [Deregister(did)] else [])
  }

  function Tagged(h: nat, effects: seq<Effect>): seq<(nat, Effect)> {
    seq(|effects|, i requires 0 <= i < |effects| => (h, effects[i]))
  }

  /** The loop of `handle_socket`. */
  method ServeLoop(m: Mediator, did: string, inputs: seq<Input>, limit: nat) returns (passed: seq<string>, ended: bool)
    modifies m`sent
    ensures ended == Ended(inputs, limit)
    ensures passed == Passed(Served(inputs, limit))
    ensures m.sent == old(m.sent) + (if m.streaming then Toggles(Served(inputs, limit), did) else [])
  {
    hide Ends, Served;
    passed := [];
    ghost var toggles: seq<Event> := [];
    var i := 0;
    assert inputs[0..] == inputs;
    while i < |inputs| && !Ends(inputs[i], limit)
      invariant i <= |inputs|
      invariant |Served(inputs, limit)| == i + |Served(inputs[i..], limit)|
      invariant Passed(Served(inputs, limit)) == passed + Passed(Served(inputs[i..], limit))
      invariant Toggles(Served(inputs, limit), did) == toggles + Toggles(Served(inputs[i..], limit), did)
      invariant m.sent == old(m.sent) + (if m.streaming then toggles else [])
    {
      ghost var rest := Served(inputs[i + 1..], limit);
      NextServed(inputs, i, limit);
      NextPassed(passed, inputs[i], rest);
      NextToggles(toggles, inputs[i], rest, did);
      match inputs[i] {
        case FromTask(message) => passed := passed + [message];
        case Text(_, Some(live)) =>
          var e := if live then Start(did) else Stop(did);
          if m.streaming {
            m.sent := m.sent + [e];
          }
          toggles := toggles + [e];
        case _ =>
      }
      i := i + 1;
    }
    NoneServed(inputs[i..], limit);
    assert passed + [] == passed && toggles + [] == toggles;
    ended := i < |inputs|;
  }

  lemma NoneServed(inputs: seq<Input>, limit: nat)
    requires inputs == [] || Ends(inputs[0], limit)
    ensures Served(inputs, limit) == []
  {
  }

  lemma NextServed(inputs: seq<Input>, i: nat, limit: nat)
    requires i < |inputs| && !Ends(inputs[i], limit)
    ensures Served(inputs[i..], limit) == [inputs[i]] + Served(inputs[i + 1..], limit)
  {
    assert inputs[i..][1..] == inputs[i + 1..];
  }

  lemma NextPassed(passed: seq<string>, input: Input, rest: seq<Input>)
    ensures passed + Passed([input] + rest)
            == (if input.FromTask? then passed + [input.message] else passed) + Passed(rest)
  {
    assert ([input] + rest)[1..] == rest;
    assert [] + Passed(rest) == Passed(rest);
  }

  lemma NextToggles(toggles: seq<Event>, input: Input, rest: seq<Input>, did: string)
    ensures toggles + Toggles([input] + rest, did) == (toggles + Toggle(input, did)) + Toggles(rest, did)
  {
    assert ([input] + rest)[1..] == rest;
  }

  /** `handle_socket`, for the inputs it sees. The log grows by exactly the effects on the way to the
      phase that the inputs lead to, in the order of that way; the commands sent are its Register, the
      Start and Stop that its texts lead to, and its Deregister at the end; and it passes on exactly
      what the task sent. A handler that could not register does nothing. */
  method HandleSocket(m: Mediator, accepts: bool, did: string, h: nat, inputs: seq<Input>, limit: nat)
    returns (passed: seq<string>)
    modifies m
    ensures m.log == old(m.log) + Tagged(h, PathTo(PhaseAfter(m.streaming, accepts, inputs, limit), m.streaming))
    ensures var p := PhaseAfter(m.streaming, accepts, inputs, limit);
            && passed == (if p == Failed then [] else Passed(Served(inputs, limit)))
            && m.opens == old(m.opens) + (if p == Failed then 0 else 1)
            && m.closes == old(m.closes) + (if p == Done then 1 else 0)
            && m.sent == old(m.sent) + SentBy(p, m.streaming, did, h, Served(inputs, limit))
  {
    hide Ended, Served, Toggles, Passed;
    passed := [];
    if m.streaming {
      if !accepts {
        return;
      }
      m.SendRegister(h, did);
    }
    m.CountOpen(h);
    var ended;
    passed, ended := ServeLoop(m, did, inputs, limit);
    if ended {
      if m.streaming {
        m.SendDeregister(h, did);
      }
      m.CountClosed(h);
    }
  }

  // ----- Many connections -----

  /** The effects of all handlers, in the order in which they happened. */
  datatype World = World(streaming: bool, phases: map<nat, Phase>, opens: nat, closes: nat, trace: seq<(nat, Effect)>)

  datatype Action = Connect(h: nat) | Advance(h: nat, accepted: bool)

  /** The next step of one handler. Without a streaming task there is nobody to register with. */
  function Act(w: World, a: Action): World {
    match a
    case Connect(h) => if h in w.phases then w else w.(phases := w.phases[h := Connecting])
    case Advance(h, accepted) =>
      if h !in w.phases then w
      else
        match w.phases[h]
        case Connecting =>
          if !w.streaming then w.(phases := w.phases[h := Registered])
          else if accepted then w.(phases := w.phases[h := Registered], trace := w.trace + [(h, SentRegister)])
          else w.(phases := w.phases[h := Failed])
        case Registered =>
          w.(phases := w.phases[h := Serving], opens := w.opens + 1, trace := w.trace + [(h, CountedOpen)])
        case Serving => w.(phases := w.phases[h := Leaving])
        case Leaving =>
          if !w.streaming then w.(phases := w.phases[h := Deregistered])
          else w.(phases := w.phases[h := Deregistered], trace := w.trace + [(h, SentDeregister)])
        case Deregistered =>
          w.(phases := w.phases[h := Done], closes := w.closes + 1, trace := w.trace + [(h, CountedClosed)])
        case _ => w
  }

  function Acts(streaming: bool, actions: seq<Action>): World {
    if actions == [] then World(streaming, map[], 0, 0, [])
    else Act(Acts(streaming, actions[..|actions| - 1]), actions[|actions| - 1])
  }

  /** The effects of one handler, in order. */
  function Trail(trace: seq<(nat, Effect)>, h: nat): seq<Effect> {
    if trace == [] then []
    else
      var last := trace[|trace| - 1];
      Trail(trace[..|trace| - 1], h) + (if last.0 == h then [last.1] else [])
  }

  lemma TrailStep(trace: seq<(nat, Effect)>, h: nat, e: Effect, other: nat)
    ensures Trail(trace + [(h, e)], other) == Trail(trace, other) + (if other == h then [e] else [])
  {
    assert (trace + [(h, e)])[..|trace|] == trace;
  }

  function Path(w: World, h: nat): seq<Effect> {
    if h in w.phases then PathTo(w.phases[h], w.streaming) else []
  }

  lemma ActPath(w: World, a: Action, h: nat)
    requires Trail(w.trace, h) == Path(w, h)
    ensures Trail(Act(w, a).trace, h) == Path(Act(w, a), h)
  {
    hide Trail;
    if a.Advance? && a.h in w.phases {
      match w.phases[a.h]
      case Connecting => TrailStep(w.trace, a.h, SentRegister, h);
      case Registered => TrailStep(w.trace, a.h, CountedOpen, h);
      case Leaving => TrailStep(w.trace, a.h, SentDeregister, h);
      case Deregistered => TrailStep(w.trace, a.h, CountedClosed, h);
      case _ =>
    }
  }

  /** In every run, however the handlers interleave, each handler has done exactly the steps up to its
      phase, in their order: it registers before it counts itself open, and deregisters before it counts
      itself closed. */
  lemma {:induction false} TrailExact(streaming: bool, actions: seq<Action>, h: nat)
    ensures var w := Acts(streaming, actions); w.streaming == streaming && Trail(w.trace, h) == Path(w, h)
  {
    hide PathTo, Trail;
    if actions == [] {
      NoTrail(h);
    } else {
      TrailExact(streaming, actions[..|actions| - 1], h);
      ActPath(Acts(streaming, actions[..|actions| - 1]), actions[|actions| - 1], h);
    }
  }

  lemma NoTrail(h: nat)
    ensures Trail([], h) == []
  {
  }

  /** The handlers between their two counter updates. */
  predicate CountsOpen(p: Phase) {
    p == Serving || p == Leaving || p == Deregistered
  }

  function OpenHandlers(phases: map<nat, Phase>): set<nat> {
    set h | h in phases && CountsOpen(phases[h])
  }

  predicate IsOpen(phases: map<nat, Phase>, h: nat) {
    h in phases && CountsOpen(phases[h])
  }

  lemma CountWith(before: set<nat>, after: set<nat>, h: nat)
    requires before - {h} == after - {h}
    ensures |after| == |before| + (if h in after then 1 else 0) - (if h in before then 1 else 0)
  {
    assert h in before ==> before == (before - {h}) + {h};
    assert h !in before ==> before == before - {h};
    assert h in after ==> after == (after - {h}) + {h};
    assert h !in after ==> after == after - {h};
  }

  lemma OthersStay(phases: map<nat, Phase>, h: nat, p: Phase)
    ensures OpenHandlers(phases[h := p]) - {h} == OpenHandlers(phases) - {h}
    ensures h in OpenHandlers(phases[h := p]) <==> CountsOpen(p)
    ensures h in OpenHandlers(phases) <==> IsOpen(phases, h)
  {
    hide CountsOpen;
    var moved := phases[h := p];
    forall x ensures x in OpenHandlers(moved) - {h} <==> x in OpenHandlers(phases) - {h} {
      assert x != h ==> (x in moved <==> x in phases) && (x in moved ==> moved[x] == phases[x]);
    }
  }

  /** How a handler's change of phase changes the number of open handlers. */
  lemma MoveHandler(phases: map<nat, Phase>, h: nat, p: Phase)
    ensures |OpenHandlers(phases[h := p])|
            == |OpenHandlers(phases)| + (if CountsOpen(p) then 1 else 0) - (if IsOpen(phases, h) then 1 else 0)
  {
    hide OpenHandlers, CountsOpen, IsOpen;
    OthersStay(phases, h, p);
    CountWith(OpenHandlers(phases), OpenHandlers(phases[h := p]), h);
  }

  lemma ActCounts(w: World, a: Action)
    requires w.opens == w.closes + |OpenHandlers(w.phases)|
    ensures Act(w, a).opens == Act(w, a).closes + |OpenHandlers(Act(w, a).phases)|
  {
    hide OpenHandlers;
    if a.Connect? {
      MoveHandler(w.phases, a.h, Connecting);
    } else if a.h in w.phases {
      match w.phases[a.h]
      case Connecting => MoveHandler(w.phases, a.h, if w.streaming && !a.accepted then Failed else Registered);
      case Registered => MoveHandler(w.phases, a.h, Serving);
      case Serving => MoveHandler(w.phases, a.h, Leaving);
      case Leaving => MoveHandler(w.phases, a.h, Deregistered);
      case Deregistered => MoveHandler(w.phases, a.h, Done);
      case _ =>
    }
  }

  /** The difference of the counters is the number of handlers between their counter updates. */
  lemma {:induction false} CountersExact(streaming: bool, actions: seq<Action>)
    ensures var w := Acts(streaming, actions); w.opens == w.closes + |OpenHandlers(w.phases)|
  {
    hide Act;
    if actions != [] {
      CountersExact(streaming, actions[..|actions| - 1]);
      ActCounts(Acts(streaming, actions[..|actions| - 1]), actions[|actions| - 1]);
    } else {
      assert OpenHandlers(map[]) == {};
    }
  }

  /** After any run, a new handler whose registration is taken can go through its whole life, which counts it
      open once and closed once, and adds its effects, in order, to what happened before. */
  lemma HandlerFinishes(streaming: bool, actions: seq<Action>, h: nat)
    requires h !in Acts(streaming, actions).phases
    ensures var w := Acts(streaming, actions);
            var w' := Acts(streaming, actions + [Connect(h)] + [Advance(h, true)] + [Advance(h, true)]
                                      + [Advance(h, true)] + [Advance(h, true)] + [Advance(h, true)]);
            && w'.phases == w.phases[h := Done] && w'.opens == w.opens + 1 && w'.closes == w.closes + 1
            && w'.trace == w.trace + Tagged(h, PathTo(Done, streaming))
  {
    hide Acts, Trail;
    TrailExact(streaming, actions, h);
    var a := Advance(h, true);
    var l0 := actions + [Connect(h)];
    NextAct(streaming, actions, Connect(h));
    NextAct(streaming, l0, a);
    NextAct(streaming, l0 + [a], a);
    NextAct(streaming, l0 + [a] + [a], a);
    NextAct(streaming, l0 + [a] + [a] + [a], a);
    NextAct(streaming, l0 + [a] + [a] + [a] + [a], a);
  }

  lemma NextAct(streaming: bool, actions: seq<Action>, a: Action)
    ensures Acts(streaming, actions + [a]) == Act(Acts(streaming, actions), a)
  {
    hide Act;
    assert (actions + [a])[..|actions|] == actions;
  }
}
