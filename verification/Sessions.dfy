/** The mediator's login: a challenge is recorded as a session in Redis; the response renames the
    session to a fresh id, marks it authenticated, and returns tokens. */
module Sessions {
  import opened Wrappers
  import opened JsonText
  import opened Serde
  import opened Documents
  import opened Messages
  import opened Unpacking

  // ----- Stored sessions -----

  /** A Redis hash. */
  type Hash = map<string, string>

  datatype SessionState = ChallengeSent | Authenticated

  datatype Session = Session(id: string, challenge: string, state: SessionState, did: string)

  function StateName(s: SessionState): string {
    match s
    case ChallengeSent => "ChallengeSent"
    case Authenticated => "Authenticated"
  }

  function StateOf(name: string): Option<SessionState> {
    if name == "ChallengeSent" then Some(ChallengeSent)
    else if name == "Authenticated" then Some(Authenticated)
    else None
  }

  /** `Session::try_from`; a missing key reads as an empty hash. */
  function ParseSession(id: string, hash: Hash): Option<Session> {
    if "challenge" !in hash || "state" !in hash || "did" !in hash then None
    else
      match StateOf(hash["state"])
      case None => None
      case Some(state) => Some(Session(id, hash["challenge"], state, hash["did"]))
  }

  type Store = map<string, Hash>

  function HashAt(store: Store, id: string): Hash {
    if id in store then store[id] else map[]
  }

  function SessionAt(store: Store, id: string): Option<Session> {
    ParseSession(id, HashAt(store, id))
  }

  /** HSET of the three fields. */
  function WithSession(store: Store, s: Session): Store {
    store[s.id := HashAt(store, s.id)["challenge" := s.challenge]["state" := StateName(s.state)]["did" := s.did]]
  }

  /** RENAME, if there is something to rename. */
  function Renamed(store: Store, old_: string, fresh_: string): Store {
    if old_ in store then (store - {old_})[fresh_ := store[old_]] else store
  }

  /** RENAME and HSET in one transaction: a failed RENAME does not stop the HSET. */
  function Updated(store: Store, old_: string, fresh_: string): Store {
    var renamed := Renamed(store, old_, fresh_);
    renamed[fresh_ := HashAt(renamed, fresh_)["state" := StateName(Authenticated)]]
  }

  class SessionDatabase {
    var store: Store
    var created: nat
    var succeeded: nat

    constructor ()
      ensures store == map[] && created == 0 && succeeded == 0
    {
      store, created, succeeded := map[], 0, 0;
    }

    method CreateSession(s: Session)
      modifies this
      ensures store == WithSession(old(store), s)
      ensures created == old(created) + 1 && succeeded == old(succeeded)
    {
      var hash := if s.id in store then store[s.id] else map[];
      hash := hash["challenge" := s.challenge];
      hash := hash["state" := StateName(s.state)];
      hash := hash["did" := s.did];
      store := store[s.id := hash];
      created := created + 1;
    }

    method GetSession(id: string) returns (s: Option<Session>)
      ensures s == SessionAt(store, id)
    {
      var hash := if id in store then store[id] else map[];
      if "challenge" !in hash {
        return None;
      }
      if "state" !in hash {
        return None;
      }
      var state := StateOf(hash["state"]);
      if state.None? {
        return None;
      }
      if "did" !in hash {
        return None;
      }
      return Some(Session(id, hash["challenge"], state.value, hash["did"]));
    }

    /** Reports failure exactly if there was nothing to rename; the other commands run in any case. */
    method UpdateAuthenticated(old_: string, fresh_: string) returns (ok: bool)
      modifies this
      ensures ok <==> old_ in old(store)
      ensures store == Updated(old(store), old_, fresh_)
      ensures succeeded == old(succeeded) + 1 && created == old(created)
    {
      ok := old_ in store;
      if ok {
        var hash := store[old_];
        store := store - {old_};
        store := store[fresh_ := hash];
      }
      var hash := if fresh_ in store then store[fresh_] else map[];
      store := store[fresh_ := hash["state" := StateName(Authenticated)]];
      succeeded := succeeded + 1;
    }
  }

  // ----- The two handlers -----

  datatype Refusal =
    | BadEnvelope | BadMessage | WrongType | Expired | BadBody
    | NoSession | WrongDid | WrongState | NoSigningKey | NotUpdated

  datatype Outcome<+T> = Granted(value: T) | Refused(reason: Refusal)

  const AUTHENTICATE := "https://affinidi.com/atm/1.0/authenticate"

  const DEFAULT_OPTIONS := Options(false, true, 1000)

  /** What the response names: the session, and the sender if there is one. */
  datatype Response = Response(session: string, from: Option<string>)

  /** Unpacking and the checks on the message, at the time `now` in seconds. */
  function ReadResponse(text: string, resolver: Resolver, secrets: Secrets, now: nat): Outcome<Response> {
    if Opened(text, resolver, secrets).Err? then Refused(BadEnvelope) else
      match UnpackString(text, resolver, secrets, DEFAULT_OPTIONS)
      case Err(_) => Refused(BadMessage)
      case Ok((m, _)) =>
        if m.msgType != AUTHENTICATE then Refused(WrongType)
        else if m.expiresTime.Some? && m.expiresTime.value <= now then Refused(Expired)
        else if !m.body.Obj? then Refused(BadBody)
        else
          match (GetStr(m.body.members, "challenge"), GetStr(m.body.members, "session_id"))
          case (Ok(_), Ok(id)) => Granted(Response(id, m.from))
          case _ => Refused(BadBody)
  }

  /** The checks on the stored session. */
  function CheckSession(s: Option<Session>, from: Option<string>): Outcome<Session> {
    if s.None? then Refused(NoSession)
    else if from.Some? && from.value != s.value.did then Refused(WrongDid)
    else if s.value.state != ChallengeSent then Refused(WrongState)
    else Granted(s.value)
  }

  /** The claims of the two tokens. */
  datatype Tokens = Tokens(subject: string, session: string, accessExpires: nat, refreshExpires: nat)

  /** `authentication_challenge`; `id` and `challenge` are the random strings. */
  method AuthenticationChallenge(db: SessionDatabase, did: string, id: string, challenge: string)
    modifies db
    ensures db.store == WithSession(old(db.store), Session(id, challenge, ChallengeSent, did))
  {
    db.CreateSession(Session(id, challenge, ChallengeSent, did));
  }

  /** The verdict on a stored hash, for a response that names this sender or none. */
  function Verdict(hash: Hash, from: Option<string>): Outcome<string> {
    if !({"challenge", "state", "did"} <= hash.Keys) || hash["state"] !in {"ChallengeSent", "Authenticated"} then
      Refused(NoSession)
    else if from.Some? && from.value != hash["did"] then Refused(WrongDid)
    else if hash["state"] == "Authenticated" then Refused(WrongState)
    else Granted(hash["did"])
  }

  /** A response passes exactly if the stored hash is complete and its state is "ChallengeSent", and the
      sender, if the response names one, is the stored DID. */
  lemma CheckSessionExact(store: Store, id: string, from: Option<string>)
    ensures CheckSession(SessionAt(store, id), from)
            == match Verdict(HashAt(store, id), from)
               case Refused(reason) => Refused(reason)
               case Granted(did) => Granted(Session(id, HashAt(store, id)["challenge"], ChallengeSent, did))
    ensures CheckSession(SessionAt(store, id), from).Granted? <==>
              var hash := HashAt(store, id);
              && "challenge" in hash && "state" in hash && "did" in hash
              && hash["state"] == "ChallengeSent" && (from.Some? ==> from.value == hash["did"])
  {
  }

  /** The only string under a name in an object. */
  predicate SoleString(j: Json, name: string, text: string) {
    j.Obj? && Values(j.members, name) == [Str(text)]
  }

  /** A text is a response for a session exactly if it unpacks to a message of the authentication type that
      has not expired, whose body has one challenge and one session id, both strings. */
  lemma ReadResponseExact(text: string, resolver: Resolver, secrets: Secrets, now: nat, r: Response)
    ensures ReadResponse(text, resolver, secrets, now) == Granted(r) <==>
              var u := UnpackString(text, resolver, secrets, Options(false, true, 1000));
              && u.Ok?
              && var m := u.value.0;
                 && m.msgType == "https://affinidi.com/atm/1.0/authenticate"
                 && (m.expiresTime.Some? ==> now < m.expiresTime.value)
                 && (exists challenge :: SoleString(m.body, "challenge", challenge))
                 && SoleString(m.body, "session_id", r.session) && m.from == r.from
  {
    hide Opened, Unpack, Values;
    var u := UnpackString(text, resolver, secrets, Options(false, true, 1000));
    if u.Ok? && u.value.0.body.Obj? {
      var vs := Values(u.value.0.body.members, "challenge");
      if |vs| == 1 && vs[0].Str? {
        assert SoleString(u.value.0.body, "challenge", vs[0].s);
      }
    }
  }

  /** Any other text is refused for the first of these reasons that applies: it is no envelope for the mediator, it
      does not unpack, the message has another type, it has expired, or its body is not as asked for. */
  lemma ReadResponseRefused(text: string, resolver: Resolver, secrets: Secrets, now: nat)
    ensures var r := ReadResponse(text, resolver, secrets, now);
            var u := UnpackString(text, resolver, secrets, Options(false, true, 1000));
            if Opened(text, resolver, secrets).Err? then r == Refused(BadEnvelope)
            else if u.Err? then r == Refused(BadMessage)
            else
              var m := u.value.0;
              if m.msgType != "https://affinidi.com/atm/1.0/authenticate" then r == Refused(WrongType)
              else if m.expiresTime.Some? && m.expiresTime.value <= now then r == Refused(Expired)
              else r.Granted? || r == Refused(BadBody)
  {
    hide Opened, Unpack, Values;
  }

  /** `authentication_response`, run without interruption; `fresh_` is the random id, and `signs` tells
      if the mediator has a key to sign tokens with. The outcome in each case, by the response and the
      stored hash; tokens are for the stored DID, and with them the session has moved to the fresh id; a
      refusal leaves the stored sessions alone. */
  method AuthenticationResponse(db: SessionDatabase, text: string, resolver: Resolver, secrets: Secrets, now: nat,
                                fresh_: string, signs: bool) returns (r: Outcome<Tokens>)
    modifies db
    ensures match ReadResponse(text, resolver, secrets, now)
            case Refused(reason) => r == Refused(reason)
            case Granted(response) =>
              match Verdict(HashAt(old(db.store), response.session), response.from)
              case Refused(reason) => r == Refused(reason)
              case Granted(did) =>
                if !signs then r == Refused(NoSigningKey)
                else && r == Granted(Tokens(did, fresh_, now + 900, now + 86400))
                     && db.store == Updated(old(db.store), response.session, fresh_)
    ensures r.Refused? ==> db.store == old(db.store)
  {
    hide UnpackString, Opened;
    var response := ReadResponse(text, resolver, secrets, now);
    if response.Refused? {
      return Refused(response.reason);
    }
    var stored := db.GetSession(response.value.session);
    CheckSessionExact(db.store, response.value.session, response.value.from);
    var checked := CheckSession(stored, response.value.from);
    if checked.Refused? {
      return Refused(checked.reason);
    }
    var session := checked.value;
    var oldId := session.id;
    session := session.(id := fresh_);
    var access, refresh := now + 900, now + 900;
    refresh := refresh + 85500;
    if !signs {
      return Refused(NoSigningKey);
    }
    var ok := db.UpdateAuthenticated(oldId, session.id);
    if !ok {
      return Refused(NotUpdated);
    }
    return Granted(Tokens(session.did, session.id, access, refresh));
  }

  // ----- Interleaved handlers -----

  /** A response handler between its read of the session and its update. */
  datatype Pending = Pending(session: string, next: string, did: string, from: Option<string>)

  /** A token pair that was returned; `from` is the sender that the response named, if it named one. */
  datatype Login = Login(session: string, next: string, subject: string, from: Option<string>)

  datatype World = World(
    store: Store,
    used: set<string>,              // the random ids drawn so far
    challenges: map<string, string>, // the DID recorded with each challenge
    pending: seq<Pending>,
    logins: seq<Login>,             // token pairs returned
    succeeded: nat)                 // SESSIONS_SUCCESS

  datatype Action =
    | Challenge(id: string, challenge: string, did: string)
    | Respond(id: string, from: Option<string>, next: string)
    | Update(i: nat)
    | Expire(id: string)

  /** Ids that were drawn before are not drawn again. */
  function Act(w: World, a: Action): World {
    match a
    case Challenge(id, challenge, did) =>
      if id in w.used then w
      else w.(store := WithSession(w.store, Session(id, challenge, ChallengeSent, did)), used := w.used + {id},
              challenges := w.challenges[id := did])
    case Respond(id, from, next) =>
      var checked := CheckSession(SessionAt(w.store, id), from);
      if checked.Refused? || next in w.used then w
      else w.(used := w.used + {next}, pending := w.pending + [Pending(id, next, checked.value.did, from)])
    case Update(i) =>
      if i >= |w.pending| then w
      else
        var p := w.pending[i];
        w.(store := Updated(w.store, p.session, p.next), pending := w.pending[..i] + w.pending[i + 1..],
           succeeded := w.succeeded + 1,
           logins := if p.session in w.store then w.logins + [Login(p.session, p.next, p.did, p.from)] else w.logins)
    case Expire(id) => w.(store := w.store - {id})
  }

  function Acts(actions: seq<Action>): World {
    if actions == [] then World(map[], {}, map[], [], [], 0)
    else Act(Acts(actions[..|actions| - 1]), actions[|actions| - 1])
  }
}
