/** The mediator's streaming task, its table of clients, and the Redis index that the other handlers
    consult. The functions say what each command makes of the state; the methods do it in place. */
module Streaming {
  import opened Wrappers
  import Strings

  // ----- The index in Redis -----

  /** The hash `GLOBAL_STREAMING`, and the sets `STREAMING_SESSIONS:<uuid>`. */
  datatype Redis = Redis(sessions: map<string, set<string>>, rows: map<string, string>)

  function Sessions(r: Redis, uuid: string): set<string> {
    if uuid in r.sessions then r.sessions[uuid] else {}
  }

  function RowFor(uuid: string, live: bool): string {
    uuid + (if live then ":TRUE" else ":FALSE")
  }

  function Registered(r: Redis, did: string, uuid: string): Redis {
    Redis(r.sessions[uuid := Sessions(r, uuid) + {did}], r.rows[did := RowFor(uuid, false)])
  }

  function SetLive(r: Redis, did: string, uuid: string, live: bool): Redis {
    r.(rows := r.rows[did := RowFor(uuid, live)])
  }

  function Deregistered(r: Redis, did: string, uuid: string): Redis {
    Redis(r.sessions[uuid := Sessions(r, uuid) - {did}], r.rows - {did})
  }

  /** `clean_start_streaming` empties the uuid's set and deletes the row of each DID that was in it. */
  function Cleaned(r: Redis, uuid: string): Redis {
    Redis(r.sessions[uuid := {}], r.rows - Sessions(r, uuid))
  }

  /** `streaming_is_client_live`: the uuid to publish to. */
  function LiveAt(r: Redis, did: string, force: bool): Option<string> {
    if did !in r.rows then None else
      var parts := Strings.Split(r.rows[did], ':');
      if |parts| != 2 then None
      else if parts[1] == "TRUE" || force then Some(parts[0])
      else None
  }

  class Database {
    var sessions: map<string, set<string>>
    var rows: map<string, string>

    constructor (r: Redis)
      ensures State() == r
    {
      sessions, rows := r.sessions, r.rows;
    }

    ghost function State(): Redis
      reads this
    {
      Redis(sessions, rows)
    }

    function SessionsOf(uuid: string): set<string>
      reads this
    {
      if uuid in sessions then sessions[uuid] else {}
    }

    /** Pops the members of the set one by one, in no particular order. */
    method CleanStart(uuid: string) returns (count: nat)
      modifies this
      ensures State() == Cleaned(old(State()), uuid)
      ensures count == |Sessions(old(State()), uuid)|
    {
      count := 0;
      var left := SessionsOf(uuid);
      ghost var all := left;
      while left != {}
        invariant left <= all && count == |all| - |left|
        invariant sessions == old(sessions) && rows == old(rows) - (all - left)
        decreases |left|
      {
        var did :| did in left;
        rows := rows - {did};
        assert all - (left - {did}) == (all - left) + {did};
        left, count := left - {did}, count + 1;
      }
      assert all - {} == all;
      sessions := sessions[uuid := {}];
    }

    method RegisterClient(did: string, uuid: string)
      modifies this
      ensures State() == Registered(old(State()), did, uuid)
    {
      sessions := sessions[uuid := SessionsOf(uuid) + {did}];
      rows := rows[did := RowFor(uuid, false)];
    }

    method StartLive(did: string, uuid: string)
      modifies this
      ensures State() == SetLive(old(State()), did, uuid, true)
    {
      rows := rows[did := RowFor(uuid, true)];
    }

    method StopLive(did: string, uuid: string)
      modifies this
      ensures State() == SetLive(old(State()), did, uuid, false)
    {
      rows := rows[did := RowFor(uuid, false)];
    }

    method DeregisterClient(did: string, uuid: string)
      modifies this
      ensures State() == Deregistered(old(State()), did, uuid)
    {
      sessions := sessions[uuid := SessionsOf(uuid) - {did}];
      rows := rows - {did};
    }

    method IsClientLive(did: string, force: bool) returns (uuid: Option<string>)
      ensures uuid == LiveAt(State(), did, force)
    {
      if did !in rows {
        return None;
      }
      var parts := Strings.Split(rows[did], ':');
      if |parts| != 2 {
        return None;
      }
      if parts[1] == "TRUE" {
        return Some(parts[0]);
      }
      if force {
        return Some(parts[0]);
      }
      return None;
    }
  }

  // ----- The task -----

  datatype Record = Record(did: string, message: string, force: bool)

  /** A connected websocket, by number, and whether its client asked for live delivery. */
  datatype Client = Client(conn: nat, active: bool)

  /** A record that the task sent on a connection's channel, and whether the client was active then. */
  datatype Delivery = Delivery(record: Record, active: bool)

  /** What the task takes from its command channel or from pub/sub. `open` tells if the connection still
      receives, so that sending on its channel succeeds. */
  datatype Event =
    | Register(did: string, conn: nat)
    | Start(did: string)
    | Stop(did: string)
    | Deregister(did: string)
    | PubSub(record: Record, open: bool)

  datatype Task = Task(redis: Redis, clients: map<string, Client>, channels: map<nat, seq<Delivery>>)

  function Channel(t: Task, conn: nat): seq<Delivery> {
    if conn in t.channels then t.channels[conn] else []
  }

  function SetActive(clients: map<string, Client>, did: string, active: bool): map<string, Client> {
    if did in clients then clients[did := clients[did].(active := active)] else clients
  }

  function Step(uuid: string, t: Task, e: Event): Task {
    match e
    case Register(did, conn) =>
      t.(clients := t.clients[did := Client(conn, false)], redis := Registered(t.redis, did, uuid))
    case Start(did) =>
      t.(clients := SetActive(t.clients, did, true), redis := SetLive(t.redis, did, uuid, true))
    case Stop(did) =>
      t.(clients := SetActive(t.clients, did, false), redis := SetLive(t.redis, did, uuid, false))
    case Deregister(did) =>
      t.(clients := t.clients - {did}, redis := Deregistered(t.redis, did, uuid))
    case PubSub(record, open) =>
      if record.did !in t.clients then t else
        var client := t.clients[record.did];
        if record.force || client.active then
          if open then
            t.(channels := t.channels[client.conn := Channel(t, client.conn) + [Delivery(record, client.active)]])
          else t
        else t.(redis := SetLive(t.redis, record.did, uuid, false))
  }

  function Run(uuid: string, t: Task, events: seq<Event>): Task {
    if events == [] then t
    else Step(uuid, Run(uuid, t, events[..|events| - 1]), events[|events| - 1])
  }

  /** The task when it starts: cleaned up, with no clients. */
  function Fresh(uuid: string, r: Redis): Task {
    Task(Cleaned(r, uuid), map[], map[])
  }

  class StreamingTask {
    const uuid: string
    const database: Database
    var clients: map<string, Client>
    var channels: map<nat, seq<Delivery>>

    ghost function State(): Task
      reads this, database
    {
      Task(database.State(), clients, channels)
    }

    /** Cleans up the index and starts with no clients. */
    constructor (uuid: string, database: Database)
      modifies database
      ensures this.uuid == uuid && this.database == database
      ensures State() == Fresh(uuid, old(database.State()))
    {
      this.uuid, this.database := uuid, database;
      clients, channels := map[], map[];
      new;
      var _ := database.CleanStart(uuid);
    }

    method Handle(e: Event)
      modifies this, database
      ensures State() == Step(uuid, old(State()), e)
    {
      match e
      case Register(did, conn) =>
        clients := clients[did := Client(conn, false)];
        database.RegisterClient(did, uuid);
      case Start(did) =>
        if did in clients {
          clients := clients[did := clients[did].(active := true)];
        }
        database.StartLive(did, uuid);
      case Stop(did) =>
        if did in clients {
          clients := clients[did := clients[did].(active := false)];
        }
        database.StopLive(did, uuid);
      case Deregister(did) =>
        database.DeregisterClient(did, uuid);
        clients := clients - {did};
      case PubSub(record, open) =>
        if record.did in clients {
          var client := clients[record.did];
          if record.force || client.active {
            if open {
              var sent := if client.conn in channels then channels[client.conn] else [];
              channels := channels[client.conn := sent + [Delivery(record, client.active)]];
            }
          } else {
            database.StopLive(record.did, uuid);
          }
        }
    }

    /** The loop of `ws_streaming_task`, for the events of a run. */
    method Serve(events: seq<Event>)
      modifies this, database
      ensures State() == Run(uuid, old(State()), events)
    {
      hide Step;
      for i := 0 to |events|
        invariant State() == Run(uuid, old(State()), events[..i])
      {
        assert events[..i + 1][..i] == events[..i];
        Handle(events[i]);
      }
      assert events[..|events|] == events;
    }
  }
}
