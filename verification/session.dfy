/** A game session of the complete server variant: its connections (each a FIFO outbox), its
    player roster, its spectators, its phase and its idle timestamp. Every operation is one
    atomic transition on an immutable value; time is passed in as `now`. */
module Session {
  import opened Wrappers
  import opened Common
  import opened Channel
  import Phases

  /** A client's connection: just the outbox its stream drains. */
  datatype Connection = Connection(queue: Queue)
  {
    /** `send_message`: a `message` update is queued behind everything pending. */
    function SendMessage(text: string): (r: Connection)
      ensures Take(r.queue, |queue|) == Some((queue, [Message(text, DefaultRetry)]))
      ensures r.queue == queue + [Message(text, DefaultRetry)]
      ensures r.queue[|queue|].Event() == "message"
    {
      Channel.TakePrefix(queue, [Message(text, DefaultRetry)]);
      Connection(Put(queue, Message(text, DefaultRetry)))
    }

    /** `send_player_update`: a `player_update` with the given roster is queued behind
        everything pending. */
    function SendPlayerUpdate(roster: seq<PlayerInfo>): (r: Connection)
      ensures Take(r.queue, |queue|) == Some((queue, [PlayerUpdate(roster, DefaultRetry)]))
      ensures r.queue == queue + [PlayerUpdate(roster, DefaultRetry)]
      ensures r.queue[|queue|].Event() == "player_update"
    {
      Channel.TakePrefix(queue, [PlayerUpdate(roster, DefaultRetry)]);
      Connection(Put(queue, PlayerUpdate(roster, DefaultRetry)))
    }
  }

  /** A player record; role is None until roles are dealt. */
  datatype Player = Player(name: string, alive: bool, lover: bool, role: Option<string>)

  /** A game. `playerOrder` is the insertion order of the `players` dict, which is the order of
      every roster sent out. */
  datatype Game = Game(
    name: string,
    players: map<ClientId, Player>,
    playerOrder: seq<ClientId>,
    inProgress: bool,
    phase: Phases.Phase,
    connections: map<ClientId, Connection>,
    inactiveSince: Option<Time>,
    spectators: set<ClientId>)

  ghost predicate NoDuplicates(s: seq<ClientId>)
  {
    forall i, j :: 0 <= i < j < |s| ==> s[i] != s[j]
  }

  /** `order` lists every key of `players` exactly once. */
  ghost predicate OrderMatches(order: seq<ClientId>, players: map<ClientId, Player>)
  {
    && (forall k :: k in order ==> k in players)
    && (forall k :: k in players ==> k in order)
    && NoDuplicates(order)
  }

  /** The session invariant: no client is both player and spectator, spectators are connected,
      the game is idle exactly when nobody is connected, and the roster order is a listing of
      the players. */
  ghost predicate Valid(g: Game)
  {
    && g.players.Keys !! g.spectators
    && g.spectators <= g.connections.Keys
    && (g.inactiveSince.None? <==> |g.connections| > 0)
    && OrderMatches(g.playerOrder, g.players)
  }

  /** A freshly built game: nobody connected, no players, in the lobby, and already idle. */
  function NewGame(name: string, now: Time): (g: Game)
    ensures Valid(g)
    ensures g.name == name && g.inactiveSince == Some(now)
    ensures |g.connections| == 0 && |g.players| == 0 && |g.spectators| == 0
    ensures !g.inProgress && g.phase == Phases.Lobby
  {
    Game(name, map[], [], false, Phases.Lobby, map[], Some(now), {})
  }

  /** `order` with `x` removed, the rest in their original order. */
  function Without(order: seq<ClientId>, x: ClientId): (r: seq<ClientId>)
    ensures forall k :: k in r <==> k in order && k != x
    ensures x !in order ==> r == order
  {
    if |order| == 0 then []
    else if order[0] == x then Without(order[1..], x)
    else [order[0]] + Without(order[1..], x)
  }

  /** Removing an id that occurs once, at index `i`, cuts out exactly that position. */
  lemma {:induction false} WithoutAt(order: seq<ClientId>, i: nat)
    requires i < |order| && order[i] !in order[..i] && order[i] !in order[i + 1..]
    ensures Without(order, order[i]) == order[..i] + order[i + 1..]
  {
    if i == 0 {
      assert order[i + 1..] == order[1..];
    } else {
      var tail := order[1..];
      assert order[..i][0] == order[0];
      assert tail[i - 1] == order[i];
      assert tail[..i - 1] == order[1..i];
      assert tail[i..] == order[i + 1..];
      WithoutAt(tail, i - 1);
      assert order[..i] == [order[0]] + tail[..i - 1];
    }
  }

  lemma WithoutCutsOut(order: seq<ClientId>, x: ClientId)
    ensures forall i :: 0 <= i < |order| && order[i] == x && x !in order[..i] && x !in order[i + 1..]
              ==> Without(order, x) == order[..i] + order[i + 1..]
  {
    forall i | 0 <= i < |order| && order[i] == x && x !in order[..i] && x !in order[i + 1..]
      ensures Without(order, x) == order[..i] + order[i + 1..]
    {
      WithoutAt(order, i);
    }
  }

  lemma {:induction false} WithoutKeepsDistinct(order: seq<ClientId>, x: ClientId)
    requires NoDuplicates(order)
    ensures NoDuplicates(Without(order, x))
  {
    if |order| > 0 {
      WithoutKeepsDistinct(order[1..], x);
      if order[0] != x {
        var r := Without(order, x);
        assert r == [order[0]] + Without(order[1..], x);
        assert order[0] !in order[1..];
        forall i, j | 0 <= i < j < |r|
          ensures r[i] != r[j]
        {
          if i == 0 {
            assert r[j] in Without(order[1..], x);
          } else {
            assert r[i] == Without(order[1..], x)[i - 1];
          }
        }
      }
    }
  }

  /** The roster lines of the players listed in `order`, in that order. */
  function RosterOf(order: seq<ClientId>, players: map<ClientId, Player>): (r: seq<PlayerInfo>)
    ensures |r| <= |order|
    ensures (forall k :: k in order ==> k in players) ==>
              && |r| == |order|
              && forall i :: 0 <= i < |order| ==> r[i] == InfoFor(players[order[i]].name)
  {
    if |order| == 0 then []
    else (if order[0] in players then [InfoFor(players[order[0]].name)] else [])
         + RosterOf(order[1..], players)
  }

  /** The roster every `player_update` carries. */
  function Roster(g: Game): seq<PlayerInfo>
  {
    RosterOf(g.playerOrder, g.players)
  }

  /** `get_player_info`: the roster for a connected client, nothing for anyone else. */
  function GetPlayerInfo(g: Game, id: ClientId): (r: Option<seq<PlayerInfo>>)
    ensures r.Some? <==> id in g.connections
    ensures r.Some? ==> r.value == Roster(g)
  {
    if id in g.connections then Some(Roster(g)) else None
  }

  /** `mark_active`: the game is no longer idle; nothing else changes. */
  function MarkActive(g: Game): (r: Game)
    ensures r.inactiveSince.None?
    ensures r.(inactiveSince := g.inactiveSince) == g
  {
    g.(inactiveSince := None)
  }

  /** `mark_inactive`: the game is idle from `now`; nothing else changes. */
  function MarkInactive(g: Game, now: Time): (r: Game)
    ensures r.inactiveSince == Some(now)
    ensures r.(inactiveSince := g.inactiveSince) == g
  {
    g.(inactiveSince := Some(now))
  }

  /** `send_player_update_to_all`: every connection gets the roster it may see (for a connected
      client, the full roster) queued behind its pending updates; the set of connections and
      everything else stay as they are. */
  function SendPlayerUpdateToAll(g: Game): (r: Game)
    ensures r.connections.Keys == g.connections.Keys
    ensures forall k :: k in g.connections ==>
              r.connections[k].queue == g.connections[k].queue + [PlayerUpdate(Roster(g), DefaultRetry)]
    ensures r.(connections := g.connections) == g
  {
    g.(connections := map k | k in g.connections
                             :: g.connections[k].SendPlayerUpdate(GetPlayerInfo(g, k).value))
  }

  function Welcome(name: string): string
  {
    "Welcome to " + name + "!"
  }

  /** The part of `connect` before any roster goes out: a new connection holding the welcome
      message is registered under `id`, and the game is marked active. */
  function Welcomed(g: Game, id: ClientId): (w: Game)
    ensures w.connections == g.connections[id := Connection([Message(Welcome(g.name), DefaultRetry)])]
    ensures w.inactiveSince.None?
    ensures w.(connections := g.connections, inactiveSince := g.inactiveSince) == g
  {
    var added := g.(connections := g.connections[id := Connection([])]);
    var active := if added.inactiveSince.Some? then MarkActive(added) else added;
    active.(connections := active.connections[id := active.connections[id].SendMessage(Welcome(active.name))])
  }

  /** The last part of `connect`: the roster goes to every connection when `id` is already a
      player, and only to `id` otherwise. */
  function ShareRoster(w: Game, id: ClientId): (r: Game)
    requires id in w.connections
    ensures r.connections.Keys == w.connections.Keys
    ensures r.connections[id].queue == w.connections[id].queue + [PlayerUpdate(Roster(w), DefaultRetry)]
    ensures id in w.players ==> forall k :: k in w.connections ==>
              r.connections[k].queue == w.connections[k].queue + [PlayerUpdate(Roster(w), DefaultRetry)]
    ensures id !in w.players ==> forall k :: k in w.connections && k != id ==> r.connections[k] == w.connections[k]
    ensures r.(connections := w.connections) == w
  {
    if id in w.players then SendPlayerUpdateToAll(w)
    else w.(connections := w.connections[id := w.connections[id].SendPlayerUpdate(GetPlayerInfo(w, id).value)])
  }

  /** `connect`. A client id that already has a connection is refused and nothing changes.
      Otherwise exactly one connection is added, the game stops being idle, the newcomer's
      outbox holds the welcome message and then the roster, and the other connections receive
      the roster too exactly when the newcomer is already a player. */
  function Connect(g: Game, id: ClientId): (r: Result<Game, Error>)
    ensures r.Failure? <==> id in g.connections
    ensures r.Failure? ==> r.error == IdInUse && Detail(r.error) == "ID already in use"
    ensures r.Success? ==>
              && r.value.connections.Keys == g.connections.Keys + {id}
              && r.value.inactiveSince.None?
              && r.value.connections[id].queue
                   == [Message(Welcome(g.name), DefaultRetry), PlayerUpdate(Roster(g), DefaultRetry)]
              && (id in g.players ==> forall k :: k in g.connections ==>
                    r.value.connections[k].queue == g.connections[k].queue + [PlayerUpdate(Roster(g), DefaultRetry)])
              && (id !in g.players ==> forall k :: k in g.connections ==> r.value.connections[k] == g.connections[k])
              && r.value.(connections := g.connections, inactiveSince := g.inactiveSince) == g
  {
    if id in g.connections then Failure(IdInUse)
    else
      var welcomed := Welcomed(g, id);
      assert Roster(welcomed) == Roster(g);
      Success(ShareRoster(welcomed, id))
  }

  /** `disconnect`. An unknown id changes nothing. A known id loses its connection and its
      spectator seat; its player record goes too unless it was a spectator or the game is in
      progress. The game becomes idle from `now` exactly when no connection is left. */
  function Disconnect(g: Game, id: ClientId, now: Time): (r: Game)
    ensures id !in g.connections ==> r == g
    ensures id in g.connections ==>
              && r.connections.Keys == g.connections.Keys - {id}
              && (forall k :: k in r.connections ==> r.connections[k] == g.connections[k])
              && r.spectators == g.spectators - {id}
              && r.players == (if id !in g.spectators && !g.inProgress then g.players - {id} else g.players)
              && r.inactiveSince == (if |r.connections| == 0 then Some(now) else g.inactiveSince)
              && r.name == g.name && r.inProgress == g.inProgress && r.phase == g.phase
    ensures r.players == g.players ==> r.playerOrder == g.playerOrder
    ensures id in g.connections && id !in g.spectators && id in g.players && !g.inProgress ==>
              forall i :: 0 <= i < |g.playerOrder| && g.playerOrder[i] == id
                          && id !in g.playerOrder[..i] && id !in g.playerOrder[i + 1..]
                          ==> r.playerOrder == g.playerOrder[..i] + g.playerOrder[i + 1..]
  {
    WithoutCutsOut(g.playerOrder, id);
    if id !in g.connections then g
    else
      var unseated := Unseat(g.(connections := g.connections - {id}), id);
      if |unseated.connections| == 0 then MarkInactive(unseated, now) else unseated
  }

  /** The role part of `disconnect`: a spectator loses its seat; otherwise a player loses its
      record, and its place in the roster order, unless the game is in progress. */
  function Unseat(g: Game, id: ClientId): (r: Game)
    ensures r.spectators == g.spectators - {id}
    ensures r.players == (if id !in g.spectators && !g.inProgress then g.players - {id} else g.players)
    ensures r.playerOrder
              == if id !in g.spectators && id in g.players && !g.inProgress then Without(g.playerOrder, id)
                 else g.playerOrder
    ensures r.(players := g.players, playerOrder := g.playerOrder, spectators := g.spectators) == g
  {
    if id in g.spectators then g.(spectators := g.spectators - {id})
    else if id in g.players && !g.inProgress then
      g.(players := g.players - {id}, playerOrder := Without(g.playerOrder, id))
    else g
  }

  /** Whether `join` may give `id` a role: it is connected and has none yet. */
  predicate MayJoin(g: Game, id: ClientId)
  {
    id in g.connections && id !in g.players && id !in g.spectators
  }

  /** `join`. Only a connected client without a role can get one: a spectator seat at any time,
      a fresh player record (alive, no lover, no role, placed last in the roster) only before
      the game is in progress. Every other case is a silent no-op. Nothing but the roles changes
      and no update is sent. */
  function Join(g: Game, id: ClientId, data: Phases.JoinData): (r: Game)
    ensures !MayJoin(g, id) ==> r == g
    ensures r.spectators == g.spectators + (if MayJoin(g, id) && data.JoinSpectator? then {id} else {})
    ensures r.players.Keys
              == g.players.Keys + (if MayJoin(g, id) && data.JoinPlayer? && !g.inProgress then {id} else {})
    ensures forall k :: k in g.players ==> r.players[k] == g.players[k]
    ensures id in r.players && id !in g.players ==> r.players[id] == Player(data.name, true, false, None)
    ensures r.playerOrder
              == g.playerOrder + (if MayJoin(g, id) && data.JoinPlayer? && !g.inProgress then [id] else [])
    ensures r.(players := g.players, playerOrder := g.playerOrder, spectators := g.spectators) == g
  {
    if MayJoin(g, id) then
      match data
      case JoinSpectator => g.(spectators := g.spectators + {id})
      case JoinPlayer(name) =>
        if !g.inProgress then
          g.(players := g.players[id := Player(name, true, false, None)], playerOrder := g.playerOrder + [id])
        else g
    else g
  }

  /** Runs a phase handler that was found. The lobby's `start` handler has an empty body. */
  function RunHandler(g: Game, h: Phases.Handler): Game
  {
    match h
    case OnStart => g
  }

  /** `handle_post`. A client that is not connected is refused. A `join` goes to `Join`; any
      other event goes to the phase, which refuses it with `InvalidEvent` unless the phase
      declares a handler for it. A refused post changes nothing. */
  function HandlePost(g: Game, id: ClientId, post: Phases.Post): (r: Result<Game, Error>)
    ensures id !in g.connections ==> r == Failure(NotConnected)
                                     && Detail(r.error) == "You are not connected to this game"
    ensures id in g.connections && post.Join? ==> r == Success(Join(g, id, post.data))
    ensures id in g.connections && !post.Join? ==>
              && (r.Success? <==> Phases.EventName(post) in Phases.Handlers(g.phase))
              && (r.Failure? ==> r.error == InvalidEvent)
              && (r.Success? ==> r.value == g)
  {
    if id !in g.connections then Failure(NotConnected)
    else if post.Join? then Success(Join(g, id, post.data))
    else
      match Phases.Dispatch(g.phase, Phases.EventName(post))
      case Failure(e) => Failure(e)
      case Success(h) => Success(RunHandler(g, h))
  }

  // ---------------------------------------------------------------------------------------
  // Invariant preservation

  lemma ConnectPreservesValid(g: Game, id: ClientId)
    requires Valid(g)
    ensures Connect(g, id).Success? ==> Valid(Connect(g, id).value)
  {
  }

  lemma DisconnectPreservesValid(g: Game, id: ClientId, now: Time)
    requires Valid(g)
    ensures Valid(Disconnect(g, id, now))
  {
    var r := Disconnect(g, id, now);
    if id in g.connections && id !in g.spectators && id in g.players && !g.inProgress {
      assert r.playerOrder == Without(g.playerOrder, id);
      WithoutKeepsDistinct(g.playerOrder, id);
    }
  }

  lemma JoinPreservesValid(g: Game, id: ClientId, data: Phases.JoinData)
    requires Valid(g)
    ensures Valid(Join(g, id, data))
  {
    var r := Join(g, id, data);
    if MayJoin(g, id) && data.JoinPlayer? && !g.inProgress {
      assert r.playerOrder == g.playerOrder + [id];
      assert id !in g.playerOrder;
      forall i, j | 0 <= i < j < |r.playerOrder|
        ensures r.playerOrder[i] != r.playerOrder[j]
      {
        if j == |g.playerOrder| {
          assert r.playerOrder[i] == g.playerOrder[i];
        }
      }
    }
  }

  lemma HandlePostPreservesValid(g: Game, id: ClientId, post: Phases.Post)
    requires Valid(g)
    ensures HandlePost(g, id, post).Success? ==> Valid(HandlePost(g, id, post).value)
  {
    if id in g.connections && post.Join? {
      JoinPreservesValid(g, id, post.data);
    }
  }

  // ---------------------------------------------------------------------------------------
  // The roster

  lemma {:induction false} DistinctCount(s: seq<ClientId>)
    requires NoDuplicates(s)
    ensures |set k | k in s| == |s|
  {
    if |s| > 0 {
      DistinctCount(s[1..]);
      assert (set k | k in s) == {s[0]} + (set k | k in s[1..]);
      assert s[0] !in s[1..];
    }
  }

  /** Every roster names each player exactly once, in the order they joined. */
  lemma RosterListsEveryPlayer(g: Game)
    requires Valid(g)
    ensures |Roster(g)| == |g.players|
    ensures forall i :: 0 <= i < |Roster(g)| ==> Roster(g)[i] == InfoFor(g.players[g.playerOrder[i]].name)
    ensures forall k :: k in g.players ==> InfoFor(g.players[k].name) in Roster(g)
  {
    DistinctCount(g.playerOrder);
    assert g.players.Keys == set k | k in g.playerOrder;
    forall k | k in g.players
      ensures InfoFor(g.players[k].name) in Roster(g)
    {
      var i :| 0 <= i < |g.playerOrder| && g.playerOrder[i] == k;
      assert Roster(g)[i] == InfoFor(g.players[k].name);
    }
  }

  lemma {:induction false} RosterOfAppend(order: seq<ClientId>, x: ClientId, players: map<ClientId, Player>)
    requires x in players
    ensures RosterOf(order + [x], players) == RosterOf(order, players) + [InfoFor(players[x].name)]
  {
    if |order| == 0 {
      assert order + [x] == [x];
    } else {
      assert (order + [x])[0] == order[0];
      assert (order + [x])[1..] == order[1..] + [x];
      RosterOfAppend(order[1..], x, players);
      var head := if order[0] in players then [InfoFor(players[order[0]].name)] else [];
      assert RosterOf(order + [x], players) == head + RosterOf(order[1..] + [x], players);
      assert RosterOf(order, players) == head + RosterOf(order[1..], players);
    }
  }

  lemma {:induction false} RosterOfFresh(order: seq<ClientId>, x: ClientId, p: Player, players: map<ClientId, Player>)
    requires x !in order
    ensures RosterOf(order, players[x := p]) == RosterOf(order, players)
  {
    if |order| > 0 {
      RosterOfFresh(order[1..], x, p, players);
    }
  }

  lemma {:induction false} RosterOfConcat(a: seq<ClientId>, b: seq<ClientId>, players: map<ClientId, Player>)
    ensures RosterOf(a + b, players) == RosterOf(a, players) + RosterOf(b, players)
  {
    if |a| == 0 {
      assert a + b == b;
    } else {
      var head := if a[0] in players then [InfoFor(players[a[0]].name)] else [];
      assert (a + b)[0] == a[0];
      assert (a + b)[1..] == a[1..] + b;
      assert RosterOf(a + b, players) == head + RosterOf(a[1..] + b, players);
      RosterOfConcat(a[1..], b, players);
      assert RosterOf(a, players) == head + RosterOf(a[1..], players);
    }
  }

  lemma {:induction false} RosterOfGone(order: seq<ClientId>, x: ClientId, players: map<ClientId, Player>)
    requires x !in order
    ensures RosterOf(order, players - {x}) == RosterOf(order, players)
  {
    if |order| > 0 {
      RosterOfGone(order[1..], x, players);
    }
  }

  lemma DistinctAt(o: seq<ClientId>, i: nat)
    requires NoDuplicates(o) && i < |o|
    ensures o[i] !in o[..i] && o[i] !in o[i + 1..]
  {
  }

  /** The roster around line `i`: the lines before it, the line of `o[i]`, the lines after it. */
  lemma RosterOfSplit(o: seq<ClientId>, i: nat, players: map<ClientId, Player>)
    requires i < |o| && o[i] in players
    ensures RosterOf(o, players)
              == RosterOf(o[..i], players) + [InfoFor(players[o[i]].name)] + RosterOf(o[i + 1..], players)
  {
    assert o == o[..i] + ([o[i]] + o[i + 1..]);
    RosterOfConcat(o[..i], [o[i]] + o[i + 1..], players);
    RosterOfConcat([o[i]], o[i + 1..], players);
  }

  /** Outside a game a player who leaves is cut out of the roster; everybody else keeps their
      relative order. */
  lemma PlayerLeavesRoster(g: Game, id: ClientId, now: Time)
    requires Valid(g) && !g.inProgress && id in g.connections && id in g.players
    ensures forall i :: 0 <= i < |g.playerOrder| && g.playerOrder[i] == id ==>
              Roster(Disconnect(g, id, now)) == Roster(g)[..i] + Roster(g)[i + 1..]
  {
    forall i | 0 <= i < |g.playerOrder| && g.playerOrder[i] == id
      ensures Roster(Disconnect(g, id, now)) == Roster(g)[..i] + Roster(g)[i + 1..]
    {
      PlayerLeavesAt(g, id, now, i);
    }
  }

  lemma PlayerLeavesAt(g: Game, id: ClientId, now: Time, i: nat)
    requires Valid(g) && !g.inProgress && id in g.connections && id in g.players
    requires i < |g.playerOrder| && g.playerOrder[i] == id
    ensures Roster(Disconnect(g, id, now)) == Roster(g)[..i] + Roster(g)[i + 1..]
  {
    var o := g.playerOrder;
    var d := Disconnect(g, id, now);
    DistinctAt(o, i);
    assert d.players == g.players - {id};
    assert d.playerOrder == o[..i] + o[i + 1..];
    RosterOfCut(o, i, g.players);
  }

  /** Cutting the line of `o[i]`, which occurs once, out of a roster of players only. */
  lemma RosterOfCut(o: seq<ClientId>, i: nat, players: map<ClientId, Player>)
    requires i < |o| && o[i] !in o[..i] && o[i] !in o[i + 1..]
    requires forall k :: k in o ==> k in players
    ensures RosterOf(o[..i] + o[i + 1..], players - {o[i]})
              == RosterOf(o, players)[..i] + RosterOf(o, players)[i + 1..]
  {
    RosterOfWithout(o, i, players);
    RosterOfSplit(o, i, players);
    assert forall k :: k in o[..i] ==> k in players;
    SliceAround(RosterOf(o[..i], players), InfoFor(players[o[i]].name), RosterOf(o[i + 1..], players));
  }

  /** The roster of the order with `o[i]` cut out, without that player, is the roster of the
      parts before and after it. */
  lemma RosterOfWithout(o: seq<ClientId>, i: nat, players: map<ClientId, Player>)
    requires i < |o| && o[i] !in o[..i] && o[i] !in o[i + 1..]
    ensures RosterOf(o[..i] + o[i + 1..], players - {o[i]})
              == RosterOf(o[..i], players) + RosterOf(o[i + 1..], players)
  {
    RosterOfConcat(o[..i], o[i + 1..], players - {o[i]});
    RosterOfGone(o[..i], o[i], players);
    RosterOfGone(o[i + 1..], o[i], players);
  }

  lemma SliceAround<T>(pre: seq<T>, m: T, post: seq<T>)
    ensures (pre + [m] + post)[..|pre|] == pre
    ensures (pre + [m] + post)[|pre| + 1..] == post
  {
  }

  /** A player who joins is appended to the end of the roster; nobody else moves. */
  lemma JoinAppendsToRoster(g: Game, id: ClientId, name: string)
    requires Valid(g) && MayJoin(g, id) && !g.inProgress
    ensures Roster(Join(g, id, Phases.JoinPlayer(name))) == Roster(g) + [InfoFor(name)]
  {
    var p := Player(name, true, false, None);
    RosterOfFresh(g.playerOrder, id, p, g.players);
    RosterOfAppend(g.playerOrder, id, g.players[id := p]);
  }

  // ---------------------------------------------------------------------------------------
  // Connect / disconnect together

  /** Outside a game a client that connects and leaves without taking a role leaves the session
      as it found it, except that a session it left empty is idle from `now`. */
  lemma ConnectThenDisconnect(g: Game, id: ClientId, now: Time)
    requires Valid(g) && id !in g.connections && id !in g.players
    ensures Connect(g, id).Success?
    ensures Disconnect(Connect(g, id).value, id, now)
              == g.(inactiveSince := if |g.connections| == 0 then Some(now) else g.inactiveSince)
  {
    var r := Disconnect(Connect(g, id).value, id, now);
    assert r.connections == g.connections;
  }

  /** Outside a game, a client that disconnects keeps no connection, player record or spectator seat. */
  lemma DisconnectForgets(g: Game, id: ClientId, now: Time)
    requires Valid(g) && !g.inProgress && id in g.connections
    ensures id !in Disconnect(g, id, now).connections
    ensures id !in Disconnect(g, id, now).players
    ensures id !in Disconnect(g, id, now).spectators
  {
  }

  /** During a game a player that drops keeps its player record and its place in the roster. */
  lemma PlayerDropsInProgress(g: Game, id: ClientId, now: Time)
    requires Valid(g) && g.inProgress && id in g.connections && id in g.players
    ensures var d := Disconnect(g, id, now);
            && d.players == g.players && Roster(d) == Roster(g)
            && d.connections.Keys == g.connections.Keys - {id}
            && d.name == g.name
  {
    var d := Disconnect(g, id, now);
    assert d.players == g.players && d.playerOrder == g.playerOrder;
  }

  /** During a game a player that drops and comes back keeps its player record, the roster does
      not change, and the same clients are connected again; its reconnection is announced to
      all of them (`PlayerConnectAnnounced`). */
  lemma PlayerRejoinsInProgress(g: Game, id: ClientId, now: Time)
    requires Valid(g) && g.inProgress && id in g.connections && id in g.players
    ensures Connect(Disconnect(g, id, now), id).Success?
    ensures var r := Connect(Disconnect(g, id, now), id).value;
            && r.players == g.players
            && r.connections.Keys == g.connections.Keys
            && Roster(r) == Roster(g)
  {
    PlayerDropsInProgress(g, id, now);
    PlayerConnectAnnounced(Disconnect(g, id, now), id);
  }

  /** A player that connects makes every connection, its own included, receive the roster last. */
  lemma PlayerConnectAnnounced(g: Game, id: ClientId)
    requires id !in g.connections && id in g.players
    ensures Connect(g, id).Success?
    ensures var r := Connect(g, id).value;
            && r.players == g.players
            && Roster(r) == Roster(g)
            && (forall k :: k in r.connections ==>
                  r.connections[k].queue[|r.connections[k].queue| - 1] == PlayerUpdate(Roster(g), DefaultRetry))
  {
    var r := Connect(g, id).value;
    assert r.players == g.players && r.playerOrder == g.playerOrder;
    forall k | k in r.connections
      ensures r.connections[k].queue[|r.connections[k].queue| - 1] == PlayerUpdate(Roster(g), DefaultRetry)
    {
      if k != id {
        assert r.connections[k].queue == g.connections[k].queue + [PlayerUpdate(Roster(g), DefaultRetry)];
      }
    }
  }


  // ---------------------------------------------------------------------------------------
  // Request streams

  /** One request against a session: a stream that opens, a stream that ends, or a post. */
  datatype Request =
    | Connecting(id: ClientId)
    | Disconnecting(id: ClientId, now: Time)
    | Posting(id: ClientId, post: Phases.Post)

  function Step(g: Game, req: Request): Result<Game, Error>
  {
    match req
    case Connecting(id) => Connect(g, id)
    case Disconnecting(id, now) => Success(Disconnect(g, id, now))
    case Posting(id, post) => HandlePost(g, id, post)
  }

  /** The requests applied one at a time; a refused request is answered with its error and
      leaves the session unchanged. */
  function Run(g: Game, reqs: seq<Request>): Game
    decreases |reqs|
  {
    if |reqs| == 0 then g
    else
      match Step(g, reqs[0])
      case Success(g') => Run(g', reqs[1..])
      case Failure(_) => Run(g, reqs[1..])
  }

  /** Every session built by `NewGame` and driven by requests keeps the session invariant. */
  lemma {:induction false} RunPreservesValid(g: Game, reqs: seq<Request>)
    requires Valid(g)
    ensures Valid(Run(g, reqs))
    decreases |reqs|
  {
    if |reqs| > 0 {
      match reqs[0] {
        case Connecting(id) => ConnectPreservesValid(g, id);
        case Disconnecting(id, now) => DisconnectPreservesValid(g, id, now);
        case Posting(id, post) => HandlePostPreservesValid(g, id, post);
      }
      match Step(g, reqs[0]) {
        case Success(g') => RunPreservesValid(g', reqs[1..]);
        case Failure(_) => RunPreservesValid(g, reqs[1..]);
      }
    }
  }

  // A worked scenario: two clients join the lobby of "kaas" as players Anna and Bram.

  const KaasWelcome: Update := Message("Welcome to kaas!", 5)
  const Anna: Player := Player("Anna", true, false, None)
  const Bram: Player := Player("Bram", true, false, None)
  const KaasFirst: Game :=
    Game("kaas", map[], [], false, Phases.Lobby, map[1 := Connection([KaasWelcome, PlayerUpdate([], 5)])], None, {})
  const KaasAnna: Game := KaasFirst.(players := map[1 := Anna], playerOrder := [1])
  const KaasSecond: Game :=
    KaasAnna.(connections := KaasAnna.connections[2 := Connection([KaasWelcome, PlayerUpdate([InfoFor("Anna")], 5)])])
  const KaasBoth: Game := KaasSecond.(players := map[1 := Anna, 2 := Bram], playerOrder := [1, 2])

  lemma KaasFirstConnects()
    ensures Step(NewGame("kaas", 0), Connecting(1)) == Success(KaasFirst)
  {
    var g0 := NewGame("kaas", 0);
    assert Welcome("kaas") == "Welcome to kaas!";
    assert Roster(g0) == [];
    var r := Connect(g0, 1).value;
    assert r.connections[1].queue == [KaasWelcome, PlayerUpdate([], 5)];
    assert r.connections == KaasFirst.connections;
  }

  lemma KaasAnnaJoins()
    ensures Step(KaasFirst, Posting(1, Phases.Join(Phases.JoinPlayer("Anna")))) == Success(KaasAnna)
  {
    var r := Join(KaasFirst, 1, Phases.JoinPlayer("Anna"));
    assert MayJoin(KaasFirst, 1);
    assert r.players == KaasAnna.players;
    assert r.playerOrder == [] + [1];
    assert r == KaasAnna;
    assert HandlePost(KaasFirst, 1, Phases.Join(Phases.JoinPlayer("Anna"))) == Success(r);
  }

  lemma KaasSecondConnects()
    ensures Step(KaasAnna, Connecting(2)) == Success(KaasSecond)
  {
    assert Welcome("kaas") == "Welcome to kaas!";
    assert Roster(KaasAnna) == [InfoFor("Anna")];
    var r := Connect(KaasAnna, 2).value;
    assert r.connections[2].queue == [KaasWelcome, PlayerUpdate([InfoFor("Anna")], 5)];
    assert r.connections == KaasSecond.connections;
  }

  lemma KaasBramJoins()
    ensures Step(KaasSecond, Posting(2, Phases.Join(Phases.JoinPlayer("Bram")))) == Success(KaasBoth)
  {
    var r := Join(KaasSecond, 2, Phases.JoinPlayer("Bram"));
    assert MayJoin(KaasSecond, 2);
    assert r.players == KaasBoth.players;
    assert r.playerOrder == [1] + [2];
    assert r == KaasBoth;
    assert HandlePost(KaasSecond, 2, Phases.Join(Phases.JoinPlayer("Bram"))) == Success(r);
  }

  /** A step that succeeds moves the run on to the next request from its result. */
  lemma RunStep(g: Game, reqs: seq<Request>, g': Game)
    requires |reqs| > 0 && Step(g, reqs[0]) == Success(g')
    ensures Run(g, reqs) == Run(g', reqs[1..])
  {
  }

  const KaasRequests: seq<Request> :=
    [Connecting(1), Posting(1, Phases.Join(Phases.JoinPlayer("Anna"))),
     Connecting(2), Posting(2, Phases.Join(Phases.JoinPlayer("Bram")))]

  /** Driving a fresh "kaas" game through the four requests ends in `KaasBoth`. */
  lemma KaasScenario()
    ensures Run(NewGame("kaas", 0), KaasRequests) == KaasBoth
  {
    var reqs := KaasRequests;
    var rest1, rest2, rest3 := reqs[1..], reqs[2..], reqs[3..];
    assert rest1[1..] == rest2 && rest2[1..] == rest3 && rest3[1..] == [];
    KaasFirstConnects();
    RunStep(NewGame("kaas", 0), reqs, KaasFirst);
    KaasAnnaJoins();
    RunStep(KaasFirst, rest1, KaasAnna);
    KaasSecondConnects();
    RunStep(KaasAnna, rest2, KaasSecond);
    KaasBramJoins();
    RunStep(KaasSecond, rest3, KaasBoth);
  }

  /** At the end of the scenario the first client's outbox holds only the welcome message and the
      empty roster it got on connecting: joining sends no update to anyone, so neither Anna's nor
      Bram's join is announced. The roster lists Anna, then Bram. */
  lemma KaasOutboxes()
    ensures KaasBoth.connections.Keys == {1, 2}
    ensures KaasBoth.connections[1].queue == [Message("Welcome to kaas!", 5), PlayerUpdate([], 5)]
    ensures KaasBoth.connections[2].queue == [Message("Welcome to kaas!", 5), PlayerUpdate([InfoFor("Anna")], 5)]
    ensures Roster(KaasBoth) == [InfoFor("Anna"), InfoFor("Bram")]
  {
    assert Roster(KaasBoth) == [InfoFor("Anna"), InfoFor("Bram")];
  }
}
