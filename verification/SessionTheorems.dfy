/** Login at most once, under every interleaving of challenges, responses, updates and expiries. */
module SessionTheorems {
  import opened Wrappers
  import opened Sessions

  // ----- The invariant -----

  predicate IdsDrawn(w: World) {
    w.challenges.Keys <= w.used && w.store.Keys <= w.used
  }

  /** An id drawn for a session that may come to be: it names nothing yet. */
  predicate Unborn(w: World, id: string) {
    id in w.used && id !in w.challenges && id !in w.store && forall l :: l in w.logins ==> l.next != id
  }

  predicate PendingsSound(w: World) {
    && (forall p :: p in w.pending ==>
          p.session in w.challenges && p.did == w.challenges[p.session] && Unborn(w, p.next))
    && (forall i, j :: 0 <= i < j < |w.pending| ==> w.pending[i].next != w.pending[j].next)
  }

  /** A login used up its challenge, whose recorded DID is its subject, and has its own id. */
  predicate LoginsSound(w: World) {
    && (forall l :: l in w.logins ==>
          && l.session in w.challenges && l.subject == w.challenges[l.session] && l.session !in w.store
          && l.next in w.used && l.next !in w.challenges)
    && (forall i, j :: 0 <= i < j < |w.logins| ==>
          w.logins[i].session != w.logins[j].session && w.logins[i].next != w.logins[j].next)
  }

  /** A stored record is an open challenge, the session of a login, or unreadable. */
  predicate RecordSound(w: World, id: string) {
    var s := SessionAt(w.store, id);
    if id in w.challenges then s.Some? && s.value.state == ChallengeSent && s.value.did == w.challenges[id]
    else s.Some? ==>
           && s.value.state == Authenticated
           && exists l :: l in w.logins && l.next == id && l.subject == s.value.did
  }

  predicate RecordsSound(w: World) {
    forall id :: id in w.store ==> RecordSound(w, id)
  }

  predicate Sound(w: World) {
    IdsDrawn(w) && PendingsSound(w) && LoginsSound(w) && RecordsSound(w)
  }

  // ----- Every step keeps it -----

  lemma ChallengeKeeps(w: World, id: string, challenge: string, did: string)
    requires Sound(w)
    ensures Sound(Act(w, Challenge(id, challenge, did)))
  {
    if id !in w.used {
      var w' := Act(w, Challenge(id, challenge, did));
      assert "challenge" != "state" && "did" != "state" && "challenge" != "did";
      assert SessionAt(w'.store, id) == Some(Session(id, challenge, ChallengeSent, did));
      forall other | other in w'.store ensures RecordSound(w', other) {
        if other != id {
          assert RecordSound(w, other) && SessionAt(w'.store, other) == SessionAt(w.store, other);
        }
      }
    }
  }

  lemma RespondKeeps(w: World, id: string, from: Option<string>, next: string)
    requires Sound(w)
    ensures Sound(Act(w, Respond(id, from, next)))
  {
    hide ParseSession;
    var checked := CheckSession(SessionAt(w.store, id), from);
    if checked.Granted? && next !in w.used {
      MissingUnreadable(w.store, id);
      assert RecordSound(w, id);
      var w' := Act(w, Respond(id, from, next));
      assert next !in w.challenges && next !in w.store;
      forall other | other in w'.store ensures RecordSound(w', other) {
        assert RecordSound(w, other);
      }
    }
  }

  lemma MissingUnreadable(store: Store, id: string)
    ensures SessionAt(store, id).Some? ==> id in store
  {
  }

  lemma ExpireKeeps(w: World, id: string)
    requires Sound(w)
    ensures Sound(Act(w, Expire(id)))
  {
    hide ParseSession;
    var w' := Act(w, Expire(id));
    forall other | other in w'.store ensures RecordSound(w', other) {
      assert RecordSound(w, other);
    }
  }

  /** What the transaction leaves under the new id: the renamed session, authenticated, or a record that
      cannot be read. */
  lemma UpdatedRecord(store: Store, session: string, next: string)
    requires next !in store
    ensures session in store && SessionAt(store, session).Some? ==>
              SessionAt(Updated(store, session, next), next)
              == Some(SessionAt(store, session).value.(id := next, state := Authenticated))
    ensures session !in store ==> SessionAt(Updated(store, session, next), next).None?
    ensures Updated(store, session, next).Keys == store.Keys - {session} + {next}
    ensures forall id :: id in store && id != session ==>
              SessionAt(Updated(store, session, next), id) == SessionAt(store, id)
  {
    assert "challenge" != "state" && "did" != "state";
  }

  lemma UpdateKeeps(w: World, i: nat)
    requires Sound(w)
    ensures Sound(Act(w, Update(i)))
  {
    hide ParseSession, Updated;
    if i < |w.pending| {
      var w' := Act(w, Update(i));
      var p := w.pending[i];
      assert p in w.pending;
      UpdatedRecord(w.store, p.session, p.next);
      if p.session in w.store {
        assert RecordSound(w, p.session);
        assert Login(p.session, p.next, p.did, p.from) in w'.logins;
      }
      UpdateRecords(w, i);
      UpdateLogins(w, i);
      UpdatePendings(w, i);
    }
  }

  lemma UpdateRecords(w: World, i: nat)
    requires Sound(w) && i < |w.pending|
    ensures RecordsSound(Act(w, Update(i)))
  {
    hide ParseSession, Updated;
    var w' := Act(w, Update(i));
    var p := w.pending[i];
    assert p in w.pending;
    UpdatedRecord(w.store, p.session, p.next);
    forall id | id in w'.store ensures RecordSound(w', id) {
      if id == p.next {
        if p.session in w.store {
          assert RecordSound(w, p.session);
          assert Login(p.session, p.next, p.did, p.from) in w'.logins;
        }
      } else {
        assert RecordSound(w, id);
        if id !in w.challenges && SessionAt(w.store, id).Some? {
          var l :| l in w.logins && l.next == id && l.subject == SessionAt(w.store, id).value.did;
          assert l in w'.logins;
        }
      }
    }
  }

  lemma UpdateLogins(w: World, i: nat)
    requires Sound(w) && i < |w.pending|
    ensures LoginsSound(Act(w, Update(i)))
  {
    hide ParseSession, Updated, RecordsSound;
    var w' := Act(w, Update(i));
    var p := w.pending[i];
    assert p in w.pending;
    UpdatedRecord(w.store, p.session, p.next);
    assert forall l :: l in w'.logins ==>
             l in w.logins || (l == Login(p.session, p.next, p.did, p.from) && p.session in w.store);
    forall l | l in w.logins ensures l.session != p.next && l.session !in w'.store {
      assert l.session in w.challenges;
    }
    forall j, k | 0 <= j < k < |w'.logins|
      ensures w'.logins[j].session != w'.logins[k].session && w'.logins[j].next != w'.logins[k].next
    {
      assert w'.logins[j] == w.logins[j] && w.logins[j] in w.logins;
    }
  }

  lemma RemovedPending(ps: seq<Pending>, i: nat)
    requires i < |ps| && forall j, k :: 0 <= j < k < |ps| ==> ps[j].next != ps[k].next
    ensures var rest := ps[..i] + ps[i + 1..];
            && (forall q :: q in rest ==> q in ps && q.next != ps[i].next)
            && (forall j, k :: 0 <= j < k < |rest| ==> rest[j].next != rest[k].next)
  {
    var rest := ps[..i] + ps[i + 1..];
    assert forall k :: 0 <= k < |rest| ==> rest[k] == ps[if k < i then k else k + 1];
  }

  lemma UpdatePendings(w: World, i: nat)
    requires Sound(w) && i < |w.pending|
    ensures PendingsSound(Act(w, Update(i)))
  {
    hide ParseSession, Updated, RecordsSound;
    var w' := Act(w, Update(i));
    var p := w.pending[i];
    assert p in w.pending;
    UpdatedRecord(w.store, p.session, p.next);
    RemovedPending(w.pending, i);
    forall q | q in w'.pending
      ensures q.session in w'.challenges && q.did == w'.challenges[q.session] && Unborn(w', q.next)
    {
      assert q in w.pending && q.next != p.next;
    }
  }

  lemma {:induction false} AlwaysSound(actions: seq<Action>)
    ensures Sound(Acts(actions))
  {
    hide Act, Sound;
    if actions == [] {
      NothingSound();
    } else {
      var w := Acts(actions[..|actions| - 1]);
      AlwaysSound(actions[..|actions| - 1]);
      match actions[|actions| - 1]
      case Challenge(id, challenge, did) => ChallengeKeeps(w, id, challenge, did);
      case Respond(id, from, next) => RespondKeeps(w, id, from, next);
      case Update(i) => UpdateKeeps(w, i);
      case Expire(id) => ExpireKeeps(w, id);
    }
  }

  lemma NothingSound()
    ensures Sound(Acts([]))
  {
  }

  // ----- The theorems -----

  /** The challenge handler recorded this DID with this id, and nothing else did since or before. */
  lemma {:induction false} ChallengeRecorded(actions: seq<Action>, id: string)
    requires id in Acts(actions).challenges
    ensures exists k, challenge ::
              0 <= k < |actions| && actions[k] == Challenge(id, challenge, Acts(actions).challenges[id])
  {
    var n := |actions| - 1;
    var w, a := Acts(actions[..n]), actions[n];
    if id in w.challenges && w.challenges[id] == Acts(actions).challenges[id] {
      ChallengeRecorded(actions[..n], id);
      var k, challenge :| 0 <= k < n && actions[..n][k] == Challenge(id, challenge, w.challenges[id]);
      assert actions[k] == Challenge(id, challenge, Acts(actions).challenges[id]);
    } else {
      assert a == Challenge(id, a.challenge, Acts(actions).challenges[id]);
    }
  }

  /** At most one token pair is ever returned for a session id, and its subject is the DID that the
      challenge for that id was made for. */
  lemma LoginAtMostOnce(actions: seq<Action>, i: nat)
    requires i < |Acts(actions).logins|
    ensures var logins := Acts(actions).logins;
            && (forall j :: 0 <= j < |logins| && logins[j].session == logins[i].session ==> j == i)
            && exists k, challenge ::
                 0 <= k < |actions| && actions[k] == Challenge(logins[i].session, challenge, logins[i].subject)
  {
    hide Acts, ParseSession, RecordsSound, PendingsSound;
    AlwaysSound(actions);
    var l := Acts(actions).logins[i];
    assert l in Acts(actions).logins;
    ChallengeRecorded(actions, l.session);
  }

  /** What is known of a response that passed the checks: it was made in this run, and the sender that it
      named, if it named one, is the DID of the challenge. */
  predicate Responded(actions: seq<Action>, session: string, from: Option<string>, next: string, did: string) {
    Respond(session, from, next) in actions && (from.Some? ==> from.value == did)
  }

  lemma {:induction false} AllResponded(actions: seq<Action>)
    ensures forall p :: p in Acts(actions).pending ==> Responded(actions, p.session, p.from, p.next, p.did)
    ensures forall l :: l in Acts(actions).logins ==> Responded(actions, l.session, l.from, l.next, l.subject)
  {
    hide WithSession, Updated, SessionAt, CheckSession;
    if actions != [] {
      var before, a := actions[..|actions| - 1], actions[|actions| - 1];
      AllResponded(before);
      assert forall x :: x in actions <==> x in before || x == a;
      var w := Acts(before);
      if a.Respond? {
        PassedSender(SessionAt(w.store, a.id), a.from);
      }
      if a.Update? && a.i < |w.pending| {
        assert w.pending[a.i] in w.pending;
      }
    }
  }

  lemma PassedSender(s: Option<Session>, from: Option<string>)
    ensures CheckSession(s, from).Granted? ==> (from.Some? ==> from.value == CheckSession(s, from).value.did)
  {
  }

  /** Each login goes back to a response of this run; if that response named a sender, it is the subject of
      the tokens. */
  lemma LoginSender(actions: seq<Action>, i: nat)
    requires i < |Acts(actions).logins|
    ensures var l := Acts(actions).logins[i];
            Respond(l.session, l.from, l.next) in actions && (l.from.Some? ==> l.from.value == l.subject)
  {
    hide Acts;
    AllResponded(actions);
    assert Acts(actions).logins[i] in Acts(actions).logins;
  }

  /** After any run, a challenge that is answered in time, by its own DID or by a response that names no
      sender, leads to a login, and the session is then stored as authenticated under the new id. */
  lemma AnsweredChallengeLogsIn(actions: seq<Action>, id: string, challenge: string, did: string, from: Option<string>,
                                next: string)
    requires id !in Acts(actions).used && next !in Acts(actions).used && id != next
    requires from.Some? ==> from.value == did
    ensures var w := Acts(actions);
            var w' := Acts(actions + [Challenge(id, challenge, did)] + [Respond(id, from, next)]
                           + [Update(|w.pending|)]);
            && w'.logins == w.logins + [Login(id, next, did, from)]
            && SessionAt(w'.store, next) == Some(Session(next, challenge, Authenticated, did))
            && SessionAt(w'.store, id).None?
  {
    hide ParseSession, Updated, WithSession, Acts;
    AlwaysSound(actions);
    var w := Acts(actions);
    var s := Session(id, challenge, ChallengeSent, did);
    NewSession(w.store, s);
    var w1 := Act(w, Challenge(id, challenge, did));
    NextAct(actions, Challenge(id, challenge, did), w1);
    var w2 := Act(w1, Respond(id, from, next));
    NextAct(actions + [Challenge(id, challenge, did)], Respond(id, from, next), w2);
    assert w2.pending[|w.pending|] == Pending(id, next, did, from);
    UpdatedRecord(w2.store, id, next);
    NextAct(actions + [Challenge(id, challenge, did)] + [Respond(id, from, next)], Update(|w.pending|),
            Act(w2, Update(|w.pending|)));
    MissingUnreadable(Updated(w2.store, id, next), id);
  }

  lemma NewSession(store: Store, s: Session)
    requires s.id !in store
    ensures SessionAt(WithSession(store, s), s.id) == Some(s) && WithSession(store, s).Keys == store.Keys + {s.id}
  {
    assert "challenge" != "state" && "did" != "state" && "challenge" != "did";
  }

  /** A stored session that reads as authenticated is that of exactly one login, for the same DID. */
  lemma AuthenticatedHasLogin(actions: seq<Action>, id: string)
    requires var s := SessionAt(Acts(actions).store, id); s.Some? && s.value.state == Authenticated
    ensures var w := Acts(actions);
            exists i :: && 0 <= i < |w.logins| && w.logins[i].next == id
                        && w.logins[i].subject == SessionAt(w.store, id).value.did
                        && forall j :: 0 <= j < |w.logins| && w.logins[j].next == id ==> j == i
  {
    hide Acts, ParseSession, PendingsSound;
    AlwaysSound(actions);
    var w := Acts(actions);
    MissingUnreadable(w.store, id);
    assert RecordSound(w, id);
    var l :| l in w.logins && l.next == id && l.subject == SessionAt(w.store, id).value.did;
    var i :| 0 <= i < |w.logins| && w.logins[i] == l;
    forall j | 0 <= j < |w.logins| && w.logins[j].next == id ensures j == i {
    }
  }

  /** The updates of a run that found no session left to rename. */
  function Missed(actions: seq<Action>): nat {
    if actions == [] then 0
    else
      var w, a := Acts(actions[..|actions| - 1]), actions[|actions| - 1];
      Missed(actions[..|actions| - 1])
      + (if a.Update? && a.i < |w.pending| && w.pending[a.i].session !in w.store then 1 else 0)
  }

  /** In every run the success counter is the number of logins plus the number of updates that found no
      session; so it counts the logins exactly if no update missed. */
  lemma {:induction false} SuccessesExact(actions: seq<Action>)
    ensures Acts(actions).succeeded == |Acts(actions).logins| + Missed(actions)
    ensures Acts(actions).succeeded == |Acts(actions).logins| <==> Missed(actions) == 0
  {
    hide WithSession, Updated, CheckSession, SessionAt;
    if actions != [] {
      SuccessesExact(actions[..|actions| - 1]);
    }
  }

  /** What became of a challenge: it is stored, it was used for a login, or it expired. */
  lemma {:induction false} ChallengeFate(actions: seq<Action>, id: string)
    requires id in Acts(actions).challenges
    ensures var w := Acts(actions);
            || id in w.store
            || (exists l :: l in w.logins && l.session == id)
            || Expire(id) in actions
  {
    hide ParseSession;
    var n := |actions| - 1;
    var before, a := Acts(actions[..n]), actions[n];
    var w := Acts(actions);
    assert actions == actions[..n] + [a];
    if id in before.challenges {
      ChallengeFate(actions[..n], id);
      if a.Update? && a.i < |before.pending| {
        var p := before.pending[a.i];
        if p.session == id && id in before.store {
          assert Login(p.session, p.next, p.did, p.from) in w.logins;
        }
      }
    }
  }

  /** An update misses only if its challenge was used for a login before or expired. */
  lemma MissExplained(actions: seq<Action>, i: nat)
    requires i < |Acts(actions).pending| && Acts(actions).pending[i].session !in Acts(actions).store
    ensures var id := Acts(actions).pending[i].session;
            (exists l :: l in Acts(actions).logins && l.session == id) || Expire(id) in actions
  {
    hide Acts, RecordsSound, LoginsSound;
    AlwaysSound(actions);
    assert Acts(actions).pending[i] in Acts(actions).pending;
    ChallengeFate(actions, Acts(actions).pending[i].session);
  }

  /** Two responses that read the same challenge: both transactions count as a success, one logs in. */
  lemma SuccessesOvercount(id: string, challenge: string, did: string, a: string, b: string)
    requires id != a && id != b && a != b
    ensures var actions :=
              [Challenge(id, challenge, did), Respond(id, None, a), Respond(id, None, b), Update(0), Update(0)];
            var w := Acts(actions);
            w.succeeded == 2 && w.logins == [Login(id, a, did, None)] && SessionAt(w.store, b).None?
  {
    hide ParseSession, Updated, Acts;
    var s := Session(id, challenge, ChallengeSent, did);
    var w1 := World(WithSession(map[], s), {id}, map[id := did], [], [], 0);
    var w2 := w1.(used := {id, a}, pending := [Pending(id, a, did, None)]);
    var w3 := w2.(used := {id, a, b}, pending := [Pending(id, a, did, None), Pending(id, b, did, None)]);
    var w4 := World(Updated(w3.store, id, a), w3.used, w3.challenges, [Pending(id, b, did, None)],
                    [Login(id, a, did, None)], 1);
    NewSession(map[], s);
    NoActs();
    var t1 := [] + [Challenge(id, challenge, did)];
    assert {} + {id} == {id} && {id} + {a} == {id, a} && {id, a} + {b} == {id, a, b};
    NextAct([], Challenge(id, challenge, did), w1);
    var t2 := t1 + [Respond(id, None, a)];
    NextAct(t1, Respond(id, None, a), w2);
    var t3 := t2 + [Respond(id, None, b)];
    NextAct(t2, Respond(id, None, b), w3);
    UpdatedRecord(w3.store, id, a);
    var t4 := t3 + [Update(0)];
    NextAct(t3, Update(0), w4);
    UpdatedRecord(w4.store, id, b);
    NextAct(t4, Update(0), Act(w4, Update(0)));
    assert t4 + [Update(0)]
           == [Challenge(id, challenge, did), Respond(id, None, a), Respond(id, None, b), Update(0), Update(0)];
  }

  lemma NoActs()
    ensures Acts([]) == World(map[], {}, map[], [], [], 0)
  {
  }

  lemma NextAct(actions: seq<Action>, a: Action, w: World)
    requires Act(Acts(actions), a) == w
    ensures Acts(actions + [a]) == w
  {
    assert (actions + [a])[..|actions|] == actions;
  }

  /** An expired challenge is as if it had never been made: a response to it is refused. */
  lemma ExpiredRefused(actions: seq<Action>, id: string, from: Option<string>, next: string)
    ensures SessionAt(Acts(actions + [Expire(id)]).store, id).None?
    ensures Acts(actions + [Expire(id)] + [Respond(id, from, next)]) == Acts(actions + [Expire(id)])
  {
    hide Acts;
    NextAct(actions, Expire(id), Act(Acts(actions), Expire(id)));
    var w := Acts(actions + [Expire(id)]);
    assert id !in w.store;
    NextAct(actions + [Expire(id)], Respond(id, from, next), w);
  }
}
