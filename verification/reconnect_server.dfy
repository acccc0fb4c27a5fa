/** The module-level server logic of the reconnection variant: its `games` registry, backed by
    database rows, `create_game`, and the inactivity timer's decision. */
module ReconnectServer {
  import opened Wrappers
  import opened Common
  import opened Registries
  import Reconnect

  /** The wait of the timer armed by `create_game`. */
  const CreateTimeout: nat := 30

  /** Every registered game is stored under its own name, keeps the session invariant, and has a
      database row; every row belongs to a registered game. */
  ghost predicate Valid(reg: Registry<Reconnect.Game>)
  {
    && Backed(reg)
    && forall n :: n in reg.games ==> reg.games[n].name == n && Reconnect.Valid(reg.games[n])
  }

  /** `create_game`: refused for a name already registered; otherwise a row is added and a fresh
      idle lobby is registered under that name, every other game left alone. */
  function CreateGame(reg: Registry<Reconnect.Game>, name: string, now: Time)
    : (r: Result<Registry<Reconnect.Game>, Error>)
    ensures r.Failure? <==> name in reg.games
    ensures r.Failure? ==> r.error == GameExists(name)
    ensures r.Success? ==>
              && r.value.games.Keys == reg.games.Keys + {name}
              && r.value.games[name] == Reconnect.NewGame(name, now)
              && |r.value.games[name].connections| == 0
              && r.value.games[name].inactiveSince == Some(now)
              && (forall n :: n in reg.games ==> r.value.games[n] == reg.games[n])
              && r.value.stored == reg.stored + {name}
  {
    Create(reg, name, Reconnect.NewGame(name, now))
  }

  /** What the timer reads of a game: since when it has been idle, if it is. */
  function IdleSince(g: Reconnect.Game): Option<Time>
  {
    g.inactiveSince
  }

  /** `game_inactivity_timer` for the game called `name`: `armed` is the registry when the timer
      task starts, `fired` the registry after its sleep of `seconds`, at time `now`. The game's row
      is deleted together with its registry entry. */
  function InactivityTimer(armed: Registry<Reconnect.Game>, fired: Registry<Reconnect.Game>, name: string,
                           seconds: nat, now: Time): (r: Registry<Reconnect.Game>)
    ensures r != fired ==>
              && name in armed.games && armed.games[name].inactiveSince.Some?
              && name in fired.games && fired.games[name].inactiveSince.Some?
              && now - fired.games[name].inactiveSince.value > seconds
    ensures r == fired || (r.games == fired.games - {name} && r.stored == fired.stored - {name})
    ensures && name in armed.games && armed.games[name].inactiveSince.Some?
            && name in fired.games && Expired(fired.games[name].inactiveSince, now, seconds)
            ==> name !in r.games && r.games == fired.games - {name} && r.stored == fired.stored - {name}
  {
    Timer(armed, fired, name, IdleSince, seconds, now)
  }

  // As written, `create_game` and the timer name `db.Game`, but `db` is the database module,
  // which defines no `Game` (the mapped class lives in the models module, which is never
  // imported), so both raise AttributeError at that point. `CreateGame` and `InactivityTimer`
  // above are the intended behaviour, with the mapped class in its place.

  /** The failure raised by reading `Game` off the database module. */
  const NoGameClass: Error := MissingAttribute("module", "Game")

  /** `create_game` as written: a duplicate name is refused as intended, but every other call
      raises at `db.Game` before the game is registered, so the registry never changes. */
  function CreateGameAsWritten(reg: Registry<Reconnect.Game>, name: string, now: Time)
    : (r: Result<Registry<Reconnect.Game>, Error>)
    ensures r.Failure?
    ensures name in reg.games ==> r == CreateGame(reg, name, now)
    ensures name !in reg.games ==> r.error == NoGameClass
  {
    if name in reg.games then Failure(GameExists(name)) else Failure(NoGameClass)
  }

  /** What the timer as written leaves behind, and the exception it raises, if any. */
  datatype Reaped = Reaped(reg: Registry<Reconnect.Game>, raised: Option<Error>)

  /** The timer as written: when it decides to reap, the row delete raises at `db.Game` before the
      game leaves the registry, so nothing is ever removed; otherwise it does nothing, as intended. */
  function InactivityTimerAsWritten(armed: Registry<Reconnect.Game>, fired: Registry<Reconnect.Game>,
                                    name: string, seconds: nat, now: Time): (r: Reaped)
    ensures r.reg == fired
    ensures r.raised.Some? <==> InactivityTimer(armed, fired, name, seconds, now) != fired
    ensures r.raised.Some? ==> r.raised.value == NoGameClass
  {
    if InactivityTimer(armed, fired, name, seconds, now) != fired then Reaped(fired, Some(NoGameClass))
    else Reaped(fired, None)
  }

  /** A new name: the intended `create_game` registers the game, the code as written refuses it
      with an internal error and registers nothing. */
  lemma CreateAsWrittenNeverRegisters(reg: Registry<Reconnect.Game>, name: string, now: Time)
    requires name !in reg.games
    ensures CreateGame(reg, name, now).Success? && name in CreateGame(reg, name, now).value.games
    ensures CreateGameAsWritten(reg, name, now) == Failure(NoGameClass)
  {
  }

  /** A game that was idle when its timer was armed and has expired when it fires: the intended
      timer removes it with its row, the code as written raises and keeps both. */
  lemma ExpiredGameKeptAsWritten(armed: Registry<Reconnect.Game>, fired: Registry<Reconnect.Game>, name: string,
                                 seconds: nat, now: Time)
    requires name in armed.games && armed.games[name].inactiveSince.Some?
    requires name in fired.games && Expired(fired.games[name].inactiveSince, now, seconds)
    ensures name !in InactivityTimer(armed, fired, name, seconds, now).games
    ensures var w := InactivityTimerAsWritten(armed, fired, name, seconds, now);
            w.raised == Some(NoGameClass) && name in w.reg.games
  {
  }

  lemma CreatePreservesValid(reg: Registry<Reconnect.Game>, name: string, now: Time)
    requires Valid(reg)
    ensures CreateGame(reg, name, now).Success? ==> Valid(CreateGame(reg, name, now).value)
  {
    if name !in reg.games {
      var r := CreateGame(reg, name, now).value;
      assert r.games.Keys == r.stored;
      forall n | n in r.games
        ensures r.games[n].name == n && Reconnect.Valid(r.games[n])
      {
        if n != name {
          assert r.games[n] == reg.games[n];
        }
      }
    }
  }

  lemma TimerPreservesValid(armed: Registry<Reconnect.Game>, fired: Registry<Reconnect.Game>, name: string,
                            seconds: nat, now: Time)
    requires Valid(fired)
    ensures Valid(InactivityTimer(armed, fired, name, seconds, now))
  {
  }

  /** A game in progress whose only client drops at `left`: as written it is never marked idle
      and survives every timer, while after the intended `disconnect` a timer armed on an idle
      game and firing more than `seconds` later reaps it. */
  lemma StrandedGameNeverReaped(armed: Registry<Reconnect.Game>, fired: Registry<Reconnect.Game>, name: string,
                                id: ClientId, left: Time, seconds: nat, now: Time)
    requires name in fired.games && name in armed.games
    requires var g := fired.games[name];
             Reconnect.Valid(g) && g.inProgress && g.connections.Keys == {id} && g.connections[id].active
    requires armed.games[name].inactiveSince.Some? && now > left + seconds
    ensures var asWritten := fired.(games := fired.games[name := Reconnect.DisconnectAsWritten(fired.games[name], id, left).game]);
            InactivityTimer(armed, asWritten, name, seconds, now) == asWritten
    ensures var intended := fired.(games := fired.games[name := Reconnect.Disconnect(fired.games[name], id, left)]);
            name !in InactivityTimer(armed, intended, name, seconds, now).games
  {
    var g := fired.games[name];
    assert Reconnect.AnyActive(g.connections);
    Reconnect.DisconnectAsWrittenNeverIdles(g, id, left);
    var d := Reconnect.Disconnect(g, id, left);
    assert d.connections.Keys == {id} && !d.connections[id].active;
    assert !Reconnect.AnyActive(d.connections);
  }

  /** A game nobody connects to is reaped, with its row, by the timer `create_game` arms, once
      that timer fires more than `CreateTimeout` ticks later: the registry is as before. */
  lemma CreateThenReap(reg: Registry<Reconnect.Game>, name: string, t: Time, now: Time)
    requires Backed(reg) && name !in reg.games && now > t + CreateTimeout
    ensures CreateGame(reg, name, t).Success?
    ensures var created := CreateGame(reg, name, t).value;
            InactivityTimer(created, created, name, CreateTimeout, now) == reg
  {
    CreateThenFire(reg, name, Reconnect.NewGame(name, t), IdleSince, CreateTimeout, now);
  }
}
