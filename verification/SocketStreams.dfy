/** Connections and the streaming task together: the commands that the handlers send, in the order in
    which they send them, are what the task handles, among other events. */
module SocketStreams {
  import opened Wrappers
  import opened Streaming
  import opened StreamingTheorems
  import S = Sockets

  /** The Register and Deregister commands in a trace; `dids` tells the DID of each handler. */
  function Commands(trace: seq<(nat, S.Effect)>, dids: nat -> string): seq<Event> {
    if trace == [] then []
    else
      var last := trace[|trace| - 1];
      Commands(trace[..|trace| - 1], dids)
      + match last.1
        case SentRegister => [Register(dids(last.0), last.0)]
        case SentDeregister => [Deregister(dids(last.0))]
        case _ => []
  }

  /** The Register and Deregister commands among the events of the task. Start, Stop and pub/sub records
      may come anywhere between them. */
  function Registrations(h: seq<Event>): seq<Event> {
    if h == [] then []
    else
      var last := h[|h| - 1];
      Registrations(h[..|h| - 1]) + (if last.Register? || last.Deregister? then [last] else [])
  }

  /** Who owns a DID depends on nothing else. */
  lemma {:induction false} OwnerOfRegistrations(h: seq<Event>, did: string)
    ensures Owner(h, did) == Owner(Registrations(h), did)
  {
    if h != [] {
      var before, last := h[..|h| - 1], h[|h| - 1];
      OwnerOfRegistrations(before, did);
      assert (Registrations(before) + [last])[..|Registrations(before)|] == Registrations(before);
      assert Registrations(before) + [] == Registrations(before);
    }
  }

  /** The events of the task are those of the handlers in a world, once it has handled all of them. */
  predicate CaughtUp(h: seq<Event>, w: S.World, dids: nat -> string) {
    Registrations(h) == Commands(w.trace, dids)
  }

  /** A handler that registered and did not deregister yet. */
  predicate Attached(w: S.World, h: nat) {
    h in w.phases && (w.phases[h] == S.Registered || w.phases[h] == S.Serving || w.phases[h] == S.Leaving)
  }

  lemma NextCommand(trace: seq<(nat, S.Effect)>, h: nat, e: S.Effect, dids: nat -> string, did: string)
    ensures Owner(Commands(trace + [(h, e)], dids), did)
            == if e == S.SentRegister && dids(h) == did then Some(h)
               else if e == S.SentDeregister && dids(h) == did then None
               else Owner(Commands(trace, dids), did)
  {
    var before := Commands(trace, dids);
    assert (trace + [(h, e)])[..|trace|] == trace;
    assert (before + [Register(dids(h), h)])[..|before|] == before;
    assert (before + [Deregister(dids(h))])[..|before|] == before;
    assert before + [] == before;
  }

  // ----- Every client is attached -----

  predicate OwnersAttached(w: S.World, dids: nat -> string, did: string) {
    var owner := Owner(Commands(w.trace, dids), did);
    owner.Some? ==> dids(owner.value) == did && Attached(w, owner.value)
  }

  lemma ActAttached(w: S.World, a: S.Action, dids: nat -> string, did: string)
    requires w.streaming && OwnersAttached(w, dids, did)
    ensures OwnersAttached(S.Act(w, a), dids, did)
  {
    hide Commands, Owner;
    if a.Advance? && a.h in w.phases {
      match w.phases[a.h]
      case Connecting => NextCommand(w.trace, a.h, S.SentRegister, dids, did);
      case Registered => NextCommand(w.trace, a.h, S.CountedOpen, dids, did);
      case Leaving => NextCommand(w.trace, a.h, S.SentDeregister, dids, did);
      case Deregistered => NextCommand(w.trace, a.h, S.CountedClosed, dids, did);
      case _ =>
    }
  }

  lemma {:induction false} AlwaysAttached(actions: seq<S.Action>, dids: nat -> string, did: string)
    ensures S.Acts(true, actions).streaming && OwnersAttached(S.Acts(true, actions), dids, did)
  {
    hide S.Act, OwnersAttached;
    if actions == [] {
      NobodyAttached(dids, did);
    } else {
      AlwaysAttached(actions[..|actions| - 1], dids, did);
      S.TrailExact(true, actions, 0);
      ActAttached(S.Acts(true, actions[..|actions| - 1]), actions[|actions| - 1], dids, did);
    }
  }

  lemma NobodyAttached(dids: nat -> string, did: string)
    ensures OwnersAttached(S.Acts(true, []), dids, did)
  {
  }

  /** Once the task has handled the commands of all handlers, among any other events, each of its clients
      is a connection that registered for that DID and has not deregistered: none outlives its handler. */
  lemma ClientsAreAttached(uuid: string, r: Redis, h: seq<Event>, actions: seq<S.Action>, dids: nat -> string,
                           did: string)
    requires CaughtUp(h, S.Acts(true, actions), dids)
    ensures var w := S.Acts(true, actions);
            var t := Run(uuid, Fresh(uuid, r), h);
            did in t.clients ==> Attached(w, t.clients[did].conn) && dids(t.clients[did].conn) == did
  {
    hide Run, Fresh, Commands, Registrations, S.Acts;
    AlwaysAttached(actions, dids, did);
    OwnerOfRegistrations(h, did);
    MemoryExact(uuid, r, h, did);
  }

  // ----- When an attached connection is the client -----

  /** An effect of another handler of the same DID that takes the DID from `h`. */
  predicate Rival(entry: (nat, S.Effect), h: nat, dids: nat -> string) {
    entry.0 != h && dids(entry.0) == dids(h) && (entry.1 == S.SentRegister || entry.1 == S.SentDeregister)
  }

  /** `h` registered, and no other handler of its DID registered or deregistered since. */
  predicate Undisturbed(trace: seq<(nat, S.Effect)>, h: nat, dids: nat -> string) {
    exists p :: && 0 <= p < |trace| && trace[p] == (h, S.SentRegister)
                && forall k :: p < k < |trace| ==> !Rival(trace[k], h, dids)
  }

  lemma NextUndisturbed(trace: seq<(nat, S.Effect)>, entry: (nat, S.Effect), h: nat, dids: nat -> string)
    ensures Undisturbed(trace + [entry], h, dids)
            <==> entry == (h, S.SentRegister) || (Undisturbed(trace, h, dids) && !Rival(entry, h, dids))
  {
    hide Rival;
    var longer := trace + [entry];
    assert longer[|trace|] == entry && forall k :: 0 <= k < |trace| ==> longer[k] == trace[k];
    if Undisturbed(longer, h, dids) && entry != (h, S.SentRegister) {
      var p :| && 0 <= p < |longer| && longer[p] == (h, S.SentRegister)
               && forall k :: p < k < |longer| ==> !Rival(longer[k], h, dids);
      assert trace[p] == (h, S.SentRegister) && !Rival(longer[|trace|], h, dids);
      forall k | p < k < |trace| ensures !Rival(trace[k], h, dids) {
        assert longer[k] == trace[k];
      }
    }
    if Undisturbed(trace, h, dids) && !Rival(entry, h, dids) {
      var p :| && 0 <= p < |trace| && trace[p] == (h, S.SentRegister)
               && forall k :: p < k < |trace| ==> !Rival(trace[k], h, dids);
      assert longer[p] == (h, S.SentRegister);
      assert forall k :: p < k < |longer| ==> longer[k] == (if k == |trace| then entry else trace[k]);
    }
  }

  predicate OwnsExactly(w: S.World, h: nat, dids: nat -> string) {
    Attached(w, h) ==> (Owner(Commands(w.trace, dids), dids(h)) == Some(h) <==> Undisturbed(w.trace, h, dids))
  }

  lemma ActOwns(w: S.World, a: S.Action, h: nat, dids: nat -> string)
    requires w.streaming && OwnsExactly(w, h, dids)
    ensures OwnsExactly(S.Act(w, a), h, dids)
  {
    hide Commands, Owner, Undisturbed;
    if a.Advance? && a.h in w.phases {
      var e := match w.phases[a.h]
               case Connecting => S.SentRegister
               case Registered => S.CountedOpen
               case Leaving => S.SentDeregister
               case _ => S.CountedClosed;
      NextCommand(w.trace, a.h, e, dids, dids(h));
      NextUndisturbed(w.trace, (a.h, e), h, dids);
    }
  }

  lemma {:induction false} AlwaysOwns(actions: seq<S.Action>, h: nat, dids: nat -> string)
    ensures S.Acts(true, actions).streaming && OwnsExactly(S.Acts(true, actions), h, dids)
  {
    hide S.Act, OwnsExactly;
    if actions == [] {
      NobodyOwns(h, dids);
    } else {
      AlwaysOwns(actions[..|actions| - 1], h, dids);
      S.TrailExact(true, actions, h);
      ActOwns(S.Acts(true, actions[..|actions| - 1]), actions[|actions| - 1], h, dids);
    }
  }

  lemma NobodyOwns(h: nat, dids: nat -> string)
    ensures OwnsExactly(S.Acts(true, []), h, dids)
  {
  }

  /** An attached connection is the client of its DID exactly if no other connection of that DID
      registered or deregistered after it did. */
  lemma ClientExactly(uuid: string, r: Redis, history: seq<Event>, actions: seq<S.Action>, dids: nat -> string, h: nat)
    requires CaughtUp(history, S.Acts(true, actions), dids) && Attached(S.Acts(true, actions), h)
    ensures var t := Run(uuid, Fresh(uuid, r), history);
            dids(h) in t.clients && t.clients[dids(h)].conn == h <==> Undisturbed(S.Acts(true, actions).trace, h, dids)
  {
    hide Run, Fresh, Commands, Registrations, S.Acts, Undisturbed;
    AlwaysOwns(actions, h, dids);
    OwnerOfRegistrations(history, dids(h));
    MemoryExact(uuid, r, history, dids(h));
  }

  /** No other handler has the DID of `h`. */
  predicate OnlyOneFor(w: S.World, h: nat, dids: nat -> string) {
    forall other :: other in w.phases && other != h ==> dids(other) != dids(h)
  }

  lemma {:induction false} AloneOwns(actions: seq<S.Action>, h: nat, dids: nat -> string)
    requires OnlyOneFor(S.Acts(true, actions), h, dids) && Attached(S.Acts(true, actions), h)
    ensures Owner(Commands(S.Acts(true, actions).trace, dids), dids(h)) == Some(h)
  {
    hide Commands, Owner;
    var n := |actions| - 1;
    var w, a := S.Acts(true, actions[..n]), actions[n];
    S.TrailExact(true, actions[..n], h);
    if Attached(w, h) {
      AloneOwns(actions[..n], h, dids);
    }
    if a.Advance? && a.h in w.phases {
      var e := match w.phases[a.h]
               case Connecting => S.SentRegister
               case Registered => S.CountedOpen
               case Leaving => S.SentDeregister
               case _ => S.CountedClosed;
      NextCommand(w.trace, a.h, e, dids, dids(h));
    }
  }

  /** With one connection for each DID, every attached connection is the client of its DID. */
  lemma AloneIsClient(uuid: string, r: Redis, history: seq<Event>, actions: seq<S.Action>, dids: nat -> string, h: nat)
    requires CaughtUp(history, S.Acts(true, actions), dids)
    requires OnlyOneFor(S.Acts(true, actions), h, dids) && Attached(S.Acts(true, actions), h)
    ensures var t := Run(uuid, Fresh(uuid, r), history); dids(h) in t.clients && t.clients[dids(h)].conn == h
  {
    hide Run, Fresh, Commands, Registrations, S.Acts;
    AloneOwns(actions, h, dids);
    OwnerOfRegistrations(history, dids(h));
    MemoryExact(uuid, r, history, dids(h));
  }

  // ----- Two connections for one DID -----

  /** When one of two attached connections of a DID deregisters, the other stays attached and the DID has
      no client: from any world, whichever of the two registered last. */
  lemma LeavingDetachesOther(w: S.World, leaves: nat, stays: nat, accepted: bool, dids: nat -> string)
    requires w.streaming && leaves in w.phases && w.phases[leaves] == S.Leaving && leaves != stays
    requires Attached(w, stays) && dids(leaves) == dids(stays)
    ensures var w' := S.Act(w, S.Advance(leaves, accepted));
            Attached(w', stays) && Owner(Commands(w'.trace, dids), dids(stays)) == None
  {
    hide Commands, Owner;
    NextCommand(w.trace, leaves, S.SentDeregister, dids, dids(stays));
  }

  /** Two connections of one DID of which the first has left its loop and deregistered. */
  function TwoConnections(): seq<S.Action> {
    [S.Connect(1), S.Advance(1, true), S.Connect(2), S.Advance(2, true), S.Advance(1, true), S.Advance(1, true)]
  }

  /** A second connection for a DID is cut off by the end of the first: there are runs after which it is
      attached, and yet, whatever pub/sub records follow, nothing for its DID reaches any connection. */
  lemma SecondConnectionLoses(dids: nat -> string, later: seq<Event>, conn: nat)
    requires dids(1) == dids(2)
    requires forall e :: e in later ==> e.PubSub? && e.record.did == dids(2)
    ensures var w := S.Acts(true, TwoConnections() + [S.Advance(1, true)]);
            var h := Commands(w.trace, dids);
            Attached(w, 2) && Owner(h, dids(2)) == None && Expected(h + later, conn) == Expected(h, conn)
  {
    var actions := TwoConnections();
    TwoConnected();
    assert (actions + [S.Advance(1, true)])[..|actions|] == actions;
    var w := S.Acts(true, actions);
    LeavingDetachesOther(w, 1, 2, true, dids);
    NothingDelivered(Commands(S.Act(w, S.Advance(1, true)).trace, dids), later, dids(2), conn);
  }

  lemma TwoConnected()
    ensures var w := S.Acts(true, TwoConnections());
            && w.streaming && 1 in w.phases && w.phases[1] == S.Leaving
            && 2 in w.phases && w.phases[2] == S.Registered
  {
    var t := TwoConnections();
    Unfold([], t[0]);
    assert t[..1] == [] + [t[0]];
    Unfold(t[..1], t[1]);
    assert t[..2] == t[..1] + [t[1]];
    Unfold(t[..2], t[2]);
    assert t[..3] == t[..2] + [t[2]];
    Unfold(t[..3], t[3]);
    assert t[..4] == t[..3] + [t[3]];
    Unfold(t[..4], t[4]);
    assert t[..5] == t[..4] + [t[4]];
    Unfold(t[..5], t[5]);
    assert t == t[..5] + [t[5]];
  }

  lemma Unfold(actions: seq<S.Action>, a: S.Action)
    ensures S.Acts(true, actions + [a]) == S.Act(S.Acts(true, actions), a)
    ensures S.Acts(true, []) == S.World(true, map[], 0, 0, [])
  {
    assert (actions + [a])[..|actions|] == actions;
  }
}
