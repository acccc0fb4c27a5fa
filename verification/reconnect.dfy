/** A game session of the reconnection variant. While a game is in progress a client whose
    stream ends keeps its connection, parked (inactive) with its outbox, so that it can come back
    to it. The connection's liveness is one boolean flag, `active`. */
module Reconnect {
  import opened Wrappers
  import opened Common
  import opened Channel

  /** A posted request: any event name with a JSON payload, kept as a flat string map. */
  datatype Post = Post(event: string, data: map<string, string>)

  /** The only phase of this variant. */
  datatype Phase = Lobby

  /** The handlers a phase declares. */
  datatype Handler = OnJoin

  /** The event name -> handler table of each phase: the lobby declares `join` only. */
  function Handlers(p: Phase): map<string, Handler>
  {
    match p
    case Lobby => map["join" := OnJoin]
  }

  /** The phase's `handle_post`: the handler declared for the event, or `InvalidEvent`. The
      lobby's `join` handler only logs, so a found handler changes nothing. */
  function PhasePost(p: Phase, event: string): (r: Result<Handler, Error>)
    ensures r.Success? <==> event in Handlers(p)
    ensures r.Failure? ==> r.error == InvalidEvent
  {
    if event in Handlers(p) then Success(Handlers(p)[event]) else Failure(InvalidEvent)
  }

  /** In the lobby, `join` is the one event that reaches a handler. */
  lemma LobbyAcceptsOnlyJoin(event: string)
    ensures PhasePost(Lobby, event).Success? <==> event == "join"
  {
  }

  /** A client's connection: its id, its outbox, and whether a stream is currently attached.
      The outbox reuses the update type of the complete variant, although this variant's own
      `GameUpdate` has only `player_update` and `phase_update`: nothing in this variant ever puts
      to a queue, so only its emptiness and its survival across a reconnect matter here. */
  datatype Connection = Connection(id: ClientId, queue: Queue, active: bool)

  /** A connection made by a first `connect`: live, with an empty outbox. */
  function NewConnection(id: ClientId): (c: Connection)
    ensures c.id == id && |c.queue| == 0 && c.active
  {
    Connection(id, [], true)
  }

  datatype Game = Game(
    name: string,
    connections: map<ClientId, Connection>,
    inProgress: bool,
    inactiveSince: Option<Time>,
    phase: Phase)

  /** Whether any stored connection is live. */
  predicate AnyActive(conns: map<ClientId, Connection>)
  {
    exists k :: k in conns && conns[k].active
  }

  /** The session invariant: the game is idle exactly when no stored connection is live, every
      connection is stored under its own id, and parked connections exist only during a game. */
  ghost predicate Valid(g: Game)
  {
    && (g.inactiveSince.None? <==> AnyActive(g.connections))
    && (forall k :: k in g.connections ==> g.connections[k].id == k)
    && (!g.inProgress ==> forall k :: k in g.connections ==> g.connections[k].active)
  }

  /** A new game: no connections, not in progress, in the lobby, and idle from `now`. */
  function NewGame(name: string, now: Time): (g: Game)
    ensures Valid(g)
    ensures g.name == name && |g.connections| == 0 && !g.inProgress && g.phase == Lobby
    ensures g.inactiveSince == Some(now)
  {
    Game(name, map[], false, Some(now), Lobby)
  }

  /** The common tail of `connect`: `c` is stored under `id` and the game stops being idle. */
  function Admit(g: Game, id: ClientId, c: Connection): (r: Game)
    ensures r.connections == g.connections[id := c]
    ensures r.inactiveSince.None?
    ensures r.(connections := g.connections, inactiveSince := g.inactiveSince) == g
  {
    var stored := g.(connections := g.connections[id := c]);
    if stored.inactiveSince.Some? then stored.(inactiveSince := None) else stored
  }

  /** `connect`, returning the game and the connection the stream attaches to. A known id is
      refused while no game is in progress, and refused while its connection is live; a parked
      connection is made live again with its outbox intact; an unknown id gets a new live
      connection. Any success leaves the game not idle; a refusal changes nothing. */
  function Connect(g: Game, id: ClientId): (r: Result<(Game, Connection), Error>)
    ensures id in g.connections && !g.inProgress ==> r == Failure(IdInUse) && Detail(r.error) == "ID already in use"
    ensures (id in g.connections && g.inProgress && g.connections[id].active)
              ==> r == Failure(IdConnected) && Detail(r.error) == "ID is already connected"
    ensures r.Success? <==> id !in g.connections || (g.inProgress && !g.connections[id].active)
    ensures r.Success? ==>
              && var (g', c) := r.value;
              && c.active
              && (id in g.connections ==> c == g.connections[id].(active := true))
              && (id !in g.connections ==> c == NewConnection(id))
              && g'.connections == g.connections[id := c]
              && g'.inactiveSince.None?
              && g'.(connections := g.connections, inactiveSince := g.inactiveSince) == g
  {
    if id in g.connections then
      if !g.inProgress then Failure(IdInUse)
      else
        var c := g.connections[id];
        if c.active then Failure(IdConnected)
        else
          var c' := c.(active := true);
          Success((Admit(g, id, c'), c'))
    else
      var c := NewConnection(id);
      Success((Admit(g, id, c), c))
  }

  /** Parks or drops the connection of a known id: it stops being live, and is deleted unless a
      game is in progress. */
  function Park(g: Game, id: ClientId): (r: Game)
    requires id in g.connections
    ensures g.inProgress ==> r.connections == g.connections[id := g.connections[id].(active := false)]
    ensures !g.inProgress ==> r.connections == g.connections - {id}
    ensures r.(connections := g.connections) == g
  {
    var parked := g.(connections := g.connections[id := g.connections[id].(active := false)]);
    if !parked.inProgress then parked.(connections := parked.connections - {id}) else parked
  }

  /** `disconnect`. An unknown id changes nothing. A known id's connection stops being live;
      outside a game it is deleted, during a game it is kept, so the set of known ids never
      shrinks while a game is in progress. The game becomes idle from `now` when no stored
      connection is live, and otherwise keeps its timestamp. */
  function Disconnect(g: Game, id: ClientId, now: Time): (r: Game)
    ensures id !in g.connections ==> r == g
    ensures id in g.connections ==>
              && (g.inProgress ==> r.connections.Keys == g.connections.Keys
                                   && r.connections[id] == g.connections[id].(active := false))
              && (!g.inProgress ==> r.connections.Keys == g.connections.Keys - {id})
              && (forall k :: k in r.connections && k != id ==> r.connections[k] == g.connections[k])
              && (r.inactiveSince == if AnyActive(r.connections) then g.inactiveSince else Some(now))
              && r.(connections := g.connections, inactiveSince := g.inactiveSince) == g
  {
    if id in g.connections then
      var parked := Park(g, id);
      if !AnyActive(parked.connections) then parked.(inactiveSince := Some(now)) else parked
    else g
  }

  /** `handle_post`. A client with no stored connection is refused; a parked one is still
      accepted. The post goes to the phase, which refuses every event but `join`. Nothing changes. */
  function HandlePost(g: Game, id: ClientId, post: Post): (r: Result<Game, Error>)
    ensures r.Success? <==> id in g.connections && post.event == "join"
    ensures id !in g.connections ==> r == Failure(NotConnected)
    ensures (id in g.connections && post.event != "join")
              ==> r == Failure(InvalidEvent) && Detail(r.error) == "Invalid event name"
    ensures r.Success? ==> r.value == g
  {
    if id !in g.connections then Failure(NotConnected)
    else
      match PhasePost(g.phase, post.event)
      case Failure(e) => Failure(e)
      case Success(OnJoin) => Success(g)
  }

  // ---------------------------------------------------------------------------------------
  // Invariant preservation

  lemma ConnectPreservesValid(g: Game, id: ClientId)
    requires Valid(g)
    ensures Connect(g, id).Success? ==> Valid(Connect(g, id).value.0)
  {
    if Connect(g, id).Success? {
      var (g', c) := Connect(g, id).value;
      assert g'.connections[id].active;
    }
  }

  lemma DisconnectPreservesValid(g: Game, id: ClientId, now: Time)
    requires Valid(g)
    ensures Valid(Disconnect(g, id, now))
  {
    if id in g.connections {
      var r := Disconnect(g, id, now);
      if AnyActive(r.connections) {
        var k :| k in r.connections && r.connections[k].active;
        assert k != id || !g.inProgress;
        assert k in g.connections && g.connections[k].active;
      }
    }
  }

  // ---------------------------------------------------------------------------------------
  // Reconnection

  /** During a game, a client whose stream ends and who connects again gets back the very
      connection it had, outbox included, and the game is exactly as before it left. */
  lemma DropThenReconnect(g: Game, id: ClientId, now: Time)
    requires Valid(g) && g.inProgress && id in g.connections && g.connections[id].active
    ensures Connect(Disconnect(g, id, now), id) == Success((g, g.connections[id]))
  {
    var d := Disconnect(g, id, now);
    assert d.connections[id] == g.connections[id].(active := false);
    var (g', c) := Connect(d, id).value;
    assert c == g.connections[id];
    assert g'.connections == g.connections;
  }

  /** Outside a game a client id can be used again once its stream has ended. */
  lemma DropThenConnectAgain(g: Game, id: ClientId, now: Time)
    requires Valid(g) && !g.inProgress && id in g.connections
    ensures Connect(g, id) == Failure(IdInUse)
    ensures Connect(Disconnect(g, id, now), id).Success?
    ensures Connect(Disconnect(g, id, now), id).value.1 == NewConnection(id)
  {
  }

  // ---------------------------------------------------------------------------------------
  // The code as written. Lines 96 and 98 read and write a `connected` attribute that no
  // `Connection` has (the flag is called `active`), and line 117 iterates over the keys of
  // `connections`, which are UUIDs, instead of its values. Both raise AttributeError.

  /** `connect` as written: reading `connection.connected` raises AttributeError whenever the id
      is known and a game is in progress, so no parked connection can ever be taken back. */
  function ConnectAsWritten(g: Game, id: ClientId): (r: Result<(Game, Connection), Error>)
    ensures id in g.connections && g.inProgress ==> r == Failure(MissingAttribute("Connection", "connected"))
    ensures !(id in g.connections && g.inProgress) ==> r == Connect(g, id)
  {
    if id in g.connections then
      if !g.inProgress then Failure(IdInUse)
      else Failure(MissingAttribute("Connection", "connected"))
    else
      var c := NewConnection(id);
      Success((Admit(g, id, c), c))
  }

  /** What `disconnect` as written leaves behind, and the exception it raises, if any. */
  datatype Outcome = Outcome(game: Game, raised: Option<Error>)

  /** `disconnect` as written: after parking or deleting the connection, `c.connected` is read off
      the first key. With a connection left that raises AttributeError, so the idle timestamp is
      set only when no connection at all is left. */
  function DisconnectAsWritten(g: Game, id: ClientId, now: Time): (r: Outcome)
    ensures id !in g.connections ==> r == Outcome(g, None)
    ensures id in g.connections ==>
              && r.game.connections == Park(g, id).connections
              && (r.raised.None? <==> |r.game.connections| == 0)
              && (r.raised.Some? ==> r.raised.value == MissingAttribute("UUID", "connected"))
              && (r.raised.Some? ==> r.game.inactiveSince == g.inactiveSince)
              && (r.raised.None? ==> r.game.inactiveSince == Some(now))
              && r.game.(connections := g.connections, inactiveSince := g.inactiveSince) == g
  {
    if id in g.connections then
      var parked := Park(g, id);
      if |parked.connections| == 0 then Outcome(parked.(inactiveSince := Some(now)), None)
      else Outcome(parked, Some(MissingAttribute("UUID", "connected")))
    else Outcome(g, None)
  }

  /** A parked connection during a game: as written the client is refused with an internal
      error, where the intended `connect` takes the connection back. */
  lemma ReconnectAsWrittenFails(g: Game, id: ClientId)
    requires g.inProgress && id in g.connections && !g.connections[id].active
    ensures ConnectAsWritten(g, id).Failure?
    ensures Connect(g, id).Success? && Connect(g, id).value.1 == g.connections[id].(active := true)
  {
  }

  /** During a game the as-written `disconnect` never marks the game idle, since the connection
      it parks is still stored; the intended one does once the last live stream ends. */
  lemma DisconnectAsWrittenNeverIdles(g: Game, id: ClientId, now: Time)
    requires Valid(g) && g.inProgress && id in g.connections
    ensures DisconnectAsWritten(g, id, now).raised.Some?
    ensures DisconnectAsWritten(g, id, now).game.inactiveSince == g.inactiveSince
    ensures (forall k :: k in g.connections && k != id ==> !g.connections[k].active)
              ==> Disconnect(g, id, now).inactiveSince == Some(now)
  {
  }

  /** The smallest case: one live client in a game in progress leaves. As written the game stays
      marked active forever after, so it is never reaped. */
  lemma LastClientLeavesInProgress()
    ensures var g := Game("kaas", map[7 := Connection(7, [], true)], true, None, Lobby);
            && Valid(g)
            && DisconnectAsWritten(g, 7, 100).game.inactiveSince == None
            && Disconnect(g, 7, 100).inactiveSince == Some(100)
  {
    var g := Game("kaas", map[7 := Connection(7, [], true)], true, None, Lobby);
    assert AnyActive(g.connections) by { assert g.connections[7].active; }
    DisconnectAsWrittenNeverIdles(g, 7, 100);
  }
}
