/** What the streaming task guarantees after any sequence of commands and pub/sub records: its index in
    Redis agrees with its table of clients, and records reach exactly the connections they should. */
module StreamingTheorems {
  import opened Wrappers
  import opened Lists
  import opened Streaming
  import Strings

  // ----- The state, read off the history -----

  predicate CommandFor(e: Event, did: string) {
    !e.PubSub? && e.did == did
  }

  /** The last command about a DID. */
  function LastCommand(h: seq<Event>, did: string): Option<Event> {
    if h == [] then None
    else if CommandFor(h[|h| - 1], did) then Some(h[|h| - 1])
    else LastCommand(h[..|h| - 1], did)
  }

  /** The connection of the last Register for a DID, unless a Deregister came after it. */
  function Owner(h: seq<Event>, did: string): Option<nat> {
    if h == [] then None
    else
      var e := h[|h| - 1];
      if e.Register? && e.did == did then Some(e.conn)
      else if e.Deregister? && e.did == did then None
      else Owner(h[..|h| - 1], did)
  }

  /** Live delivery is on: the last command was Start, and it found the DID registered. */
  predicate Live(h: seq<Event>, did: string) {
    Owner(h, did).Some? && LastCommand(h, did) == Some(Start(did))
  }

  lemma {:induction false} LastCommandOwner(h: seq<Event>, did: string)
    ensures Owner(h, did).Some? ==> LastCommand(h, did).Some? && !LastCommand(h, did).value.Deregister?
    ensures LastCommand(h, did).Some? ==> CommandFor(LastCommand(h, did).value, did)
    ensures LastCommand(h, did).Some? && LastCommand(h, did).value.Register? ==> Owner(h, did).Some?
  {
    if h != [] {
      LastCommandOwner(h[..|h| - 1], did);
    }
  }

  // ----- Memory -----

  predicate MemoryAgrees(t: Task, h: seq<Event>, did: string) {
    && (did in t.clients <==> Owner(h, did).Some?)
    && (did in t.clients ==> t.clients[did] == Client(Owner(h, did).value, Live(h, did)))
  }

  /** A DID has a client exactly if it was registered and not deregistered since; the client is that of
      the last registration, and active exactly if the last command about the DID was Start. */
  lemma {:induction false} MemoryExact(uuid: string, r: Redis, h: seq<Event>, did: string)
    ensures MemoryAgrees(Run(uuid, Fresh(uuid, r), h), h, did)
  {
    if h != [] {
      MemoryExact(uuid, r, h[..|h| - 1], did);
      LastCommandOwner(h[..|h| - 1], did);
    }
  }

  // ----- The index -----

  /** The row of a DID that some command was about. */
  function RowAfter(uuid: string, last: Event): Option<string> {
    if last.Deregister? then None else Some(RowFor(uuid, last.Start?))
  }

  function RowOf(r: Redis, did: string): Option<string> {
    if did in r.rows then Some(r.rows[did]) else None
  }

  lemma StepSessions(uuid: string, t: Task, e: Event, u: string)
    requires Sessions(t.redis, uuid) == t.clients.Keys
    ensures Sessions(Step(uuid, t, e).redis, uuid) == Step(uuid, t, e).clients.Keys
    ensures u != uuid ==> Sessions(Step(uuid, t, e).redis, u) == Sessions(t.redis, u)
  {
    hide RowFor, Channel;
    match e
    case Register(did, conn) =>
      assert t.clients[did := Client(conn, false)].Keys == t.clients.Keys + {did};
    case Start(did) =>
      assert SetActive(t.clients, did, true).Keys == t.clients.Keys;
    case Stop(did) =>
      assert SetActive(t.clients, did, false).Keys == t.clients.Keys;
    case Deregister(did) =>
      assert (t.clients - {did}).Keys == t.clients.Keys - {did};
    case PubSub(record, open) =>
  }

  /** The set of sessions is the set of clients, and the sets of other mediators are untouched. */
  lemma {:induction false} SessionsExact(uuid: string, r: Redis, h: seq<Event>, other: string)
    ensures var t := Run(uuid, Fresh(uuid, r), h);
            && Sessions(t.redis, uuid) == t.clients.Keys
            && (other != uuid ==> Sessions(t.redis, other) == Sessions(r, other))
  {
    hide Step;
    if h != [] {
      SessionsExact(uuid, r, h[..|h| - 1], other);
      StepSessions(uuid, Run(uuid, Fresh(uuid, r), h[..|h| - 1]), h[|h| - 1], other);
    }
  }

  /** The row of each DID is that of the last command about it, or the one left by the clean start. */
  lemma {:induction false} RowsExact(uuid: string, r: Redis, h: seq<Event>, did: string)
    ensures RowOf(Run(uuid, Fresh(uuid, r), h).redis, did)
            == match LastCommand(h, did)
               case None => RowOf(Cleaned(r, uuid), did)
               case Some(last) => RowAfter(uuid, last)
  {
    hide RowFor, Sessions;
    if h != [] {
      var before, e := h[..|h| - 1], h[|h| - 1];
      RowsExact(uuid, r, before, did);
      if e.PubSub? {
        MemoryExact(uuid, r, before, e.record.did);
        LastCommandOwner(before, e.record.did);
      }
    }
  }

  /** After every step the index agrees with memory: the sessions are the clients, and each client's row
      names this mediator and says exactly whether the client is active. */
  lemma IndexAgrees(uuid: string, r: Redis, h: seq<Event>)
    ensures var t := Run(uuid, Fresh(uuid, r), h);
            && Sessions(t.redis, uuid) == t.clients.Keys
            && forall did :: did in t.clients ==> RowOf(t.redis, did) == Some(RowFor(uuid, t.clients[did].active))
  {
    hide RowFor, Run, Fresh;
    SessionsExact(uuid, r, h, uuid);
    var t := Run(uuid, Fresh(uuid, r), h);
    forall did | did in t.clients ensures RowOf(t.redis, did) == Some(RowFor(uuid, t.clients[did].active)) {
      MemoryExact(uuid, r, h, did);
      RowsExact(uuid, r, h, did);
      LastCommandOwner(h, did);
    }
  }

  /** Rows without a client: those of a Start or Stop for a DID that is not registered and, if no command
      was about the DID, those that were there before the task started. */
  predicate Stale(uuid: string, r: Redis, h: seq<Event>, did: string) {
    && Owner(h, did).None?
    && match LastCommand(h, did)
       case None => RowOf(Cleaned(r, uuid), did).Some?
       case Some(last) => last.Start? || last.Stop?
  }

  /** After any sequence of events exactly the stale rows have no client, and exactly they survive the
      clean start of the next task, which removes only the rows of registered sessions. */
  lemma StaleRowsExact(uuid: string, r: Redis, h: seq<Event>, did: string)
    ensures var t := Run(uuid, Fresh(uuid, r), h);
            && (did !in t.clients && RowOf(t.redis, did).Some? <==> Stale(uuid, r, h, did))
            && (RowOf(Fresh(uuid, t.redis).redis, did).Some? <==> Stale(uuid, r, h, did))
  {
    hide Run, RowFor, Fresh;
    SessionsExact(uuid, r, h, uuid);
    MemoryExact(uuid, r, h, did);
    RowsExact(uuid, r, h, did);
    LastCommandOwner(h, did);
    FreshRows(uuid, Run(uuid, Fresh(uuid, r), h).redis, did);
  }

  lemma FreshRows(uuid: string, r: Redis, did: string)
    ensures RowOf(Fresh(uuid, r).redis, did) == if did in Sessions(r, uuid) then None else RowOf(r, did)
  {
  }

  // ----- The liveness check -----

  lemma {:induction false} SplitLast(a: string, b: string, sep: char)
    requires sep !in b
    ensures Strings.Split(a + [sep] + b, sep) == Strings.Split(a, sep) + [b]
  {
    var s := a + [sep] + b;
    if a == [] {
      assert s[1..] == b;
      Strings.SplitNoSep(b, sep);
    } else {
      assert s[1..] == a[1..] + [sep] + b;
      SplitLast(a[1..], b, sep);
    }
  }

  lemma RowSplits(uuid: string, live: bool)
    ensures var parts := Strings.Split(RowFor(uuid, live), ':');
            && (':' !in uuid ==> parts == [uuid, if live then "TRUE" else "FALSE"])
            && (':' in uuid ==> |parts| > 2)
  {
    var word := if live then "TRUE" else "FALSE";
    assert RowFor(uuid, live) == uuid + [':'] + word;
    SplitLast(uuid, word, ':');
    Strings.SplitMany(uuid, ':');
    if ':' !in uuid {
      Strings.SplitNoSep(uuid, ':');
    }
  }

  /** What other handlers learn about a client: that it is live here exactly when it is active, or when
      they force delivery; but a mediator whose uuid has a colon is never found. */
  lemma LivenessExact(uuid: string, r: Redis, h: seq<Event>, did: string, force: bool)
    requires Owner(h, did).Some?
    ensures LiveAt(Run(uuid, Fresh(uuid, r), h).redis, did, force)
            == if ':' !in uuid && (force || Live(h, did)) then Some(uuid) else None
  {
    hide Run, RowFor, Strings.Split;
    var t := Run(uuid, Fresh(uuid, r), h);
    MemoryExact(uuid, r, h, did);
    IndexAgrees(uuid, r, h);
    RowSplits(uuid, t.clients[did].active);
    assert t.redis.rows[did] == RowFor(uuid, Live(h, did));
    assert "TRUE"[0] != "FALSE"[0];
  }

  // ----- Delivery -----

  /** What a connection should have been sent: of the records taken from pub/sub, those whose DID it
      owned at that time, if delivery was forced or live and the connection still received. */
  function Expected(h: seq<Event>, conn: nat): seq<Delivery> {
    if h == [] then []
    else
      var before, e := h[..|h| - 1], h[|h| - 1];
      Expected(before, conn)
      + (if e.PubSub? && e.open && Owner(before, e.record.did) == Some(conn)
            && (e.record.force || Live(before, e.record.did))
         then [Delivery(e.record, Live(before, e.record.did))] else [])
  }

  /** Each connection's channel holds exactly what it should. */
  lemma {:induction false} DeliveryExact(uuid: string, r: Redis, h: seq<Event>, conn: nat)
    ensures Channel(Run(uuid, Fresh(uuid, r), h), conn) == Expected(h, conn)
  {
    if h != [] {
      var before, e := h[..|h| - 1], h[|h| - 1];
      DeliveryExact(uuid, r, before, conn);
      if e.PubSub? {
        MemoryExact(uuid, r, before, e.record.did);
      }
      assert Expected(before, conn) + [] == Expected(before, conn);
    }
  }

  function Taken(h: seq<Event>): seq<Record> {
    if h == [] then []
    else Taken(h[..|h| - 1]) + (if h[|h| - 1].PubSub? then [h[|h| - 1].record] else [])
  }

  function Records(ds: seq<Delivery>): seq<Record> {
    seq(|ds|, i requires 0 <= i < |ds| => ds[i].record)
  }

  /** What was sent is, in order, some of what was taken from pub/sub; and each record was forced, or
      sent while the client was active. */
  lemma {:induction false} ExpectedSafe(h: seq<Event>, conn: nat)
    ensures SubList(Records(Expected(h, conn)), Taken(h))
    ensures forall d :: d in Expected(h, conn) ==> d.record.force || d.active
  {
    if h != [] {
      var before, e := h[..|h| - 1], h[|h| - 1];
      ExpectedSafe(before, conn);
      var sent, now := Expected(before, conn), Expected(h, conn);
      if e.PubSub? {
        if now == sent + [] {
          assert Records(now) == Records(sent);
          AppendRight(Records(sent), Taken(before), e.record);
        } else {
          assert Records(now) == Records(sent) + [e.record];
          AppendBoth(Records(sent), Taken(before), e.record);
        }
      } else {
        assert now == sent && Taken(h) == Taken(before);
      }
    }
  }

  /** Nothing for a DID without a client reaches any connection, even if forced, until it is registered
      again. */
  lemma {:induction false} NothingDelivered(run: seq<Event>, later: seq<Event>, did: string, conn: nat)
    requires Owner(run, did).None?
    requires forall e :: e in later ==> e.PubSub? && e.record.did == did
    ensures Owner(run + later, did).None? && Expected(run + later, conn) == Expected(run, conn)
  {
    if later == [] {
      assert run + later == run;
    } else {
      var init := later[..|later| - 1];
      NothingDelivered(run, init, did, conn);
      assert (run + later)[..|run + later| - 1] == run + init;
      assert (run + later)[|run + later| - 1] == later[|later| - 1] && later[|later| - 1] in later;
    }
  }
}
