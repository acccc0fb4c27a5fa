/** The process-wide registry of games by name, shared by both server variants: duplicate-checked
    creation, and the inactivity reaper's decision. The game type is a parameter; the reaper reads
    a game's idle timestamp through `idle`. */
module Registries {
  import opened Wrappers
  import opened Common

  /** The in-memory `games` map and the names that have a durable record (a JSON file or a
      database row). */
  datatype Registry<G> = Registry(games: map<string, G>, stored: set<string>)

  /** Every registered game has a durable record and every durable record a registered game. */
  ghost predicate Backed<G>(reg: Registry<G>)
  {
    reg.games.Keys == reg.stored
  }

  /** `create_game`: a name already registered is refused; otherwise exactly one game is
      registered, and recorded, under that name. */
  function Create<G>(reg: Registry<G>, name: string, game: G): (r: Result<Registry<G>, Error>)
    ensures r.Failure? <==> name in reg.games
    ensures r.Failure? ==> r.error == GameExists(name)
                           && Detail(r.error) == "A game with the name " + name + " already exists"
    ensures r.Success? ==>
              && r.value.games.Keys == reg.games.Keys + {name}
              && r.value.games[name] == game
              && (forall n :: n in reg.games ==> r.value.games[n] == reg.games[n])
              && r.value.stored == reg.stored + {name}
  {
    if name in reg.games then Failure(GameExists(name))
    else Success(Registry(reg.games[name := game], reg.stored + {name}))
  }

  /** The reaper's test after its wait: idle since some time, and strictly more than `seconds`
      ticks ago. */
  predicate Expired(since: Option<Time>, now: Time, seconds: nat)
  {
    since.Some? && now - since.value > seconds
  }

  /** The reaper's test when it is armed: the game is registered and currently idle. */
  predicate Armed<G>(reg: Registry<G>, name: string, idle: G -> Option<Time>)
  {
    name in reg.games && idle(reg.games[name]).Some?
  }

  /** The reaper after its wait, on the registry as it is then: the game is removed, with its
      durable record, exactly when it is still registered and has been idle for too long. */
  function Fire<G>(reg: Registry<G>, name: string, idle: G -> Option<Time>, seconds: nat, now: Time)
    : (r: Registry<G>)
    ensures name !in r.games <==> name !in reg.games || Expired(idle(reg.games[name]), now, seconds)
    ensures forall n :: n in r.games ==> n in reg.games && r.games[n] == reg.games[n]
    ensures forall n :: n in reg.games && n != name ==> n in r.games
    ensures r.stored == if name in reg.games && name !in r.games then reg.stored - {name} else reg.stored
  {
    if name in reg.games && Expired(idle(reg.games[name]), now, seconds) then
      Registry(reg.games - {name}, reg.stored - {name})
    else reg
  }

  /** `game_inactivity_timer`: checked against `armed` when the timer task starts, then, after
      the sleep and whatever ran meanwhile, decided on `fired` at time `now`. */
  function Timer<G>(armed: Registry<G>, fired: Registry<G>, name: string, idle: G -> Option<Time>,
                    seconds: nat, now: Time): (r: Registry<G>)
    ensures !Armed(armed, name, idle) ==> r == fired
    ensures r != fired ==> Armed(armed, name, idle) && name in fired.games
                           && Expired(idle(fired.games[name]), now, seconds)
    ensures (Armed(armed, name, idle) && name in fired.games && Expired(idle(fired.games[name]), now, seconds))
              ==> name !in r.games && r.games == fired.games - {name} && r.stored == fired.stored - {name}
  {
    if Armed(armed, name, idle) then Fire(fired, name, idle, seconds, now) else fired
  }

  /** A game that became active again, or went idle again no more than `seconds` ago, is never
      reaped, whatever the state of the game when the timer was armed. */
  lemma ReactivatedGameSurvives<G>(armed: Registry<G>, fired: Registry<G>, name: string,
                                   idle: G -> Option<Time>, seconds: nat, now: Time)
    requires name in fired.games
    requires idle(fired.games[name]).None? || idle(fired.games[name]).value + seconds >= now
    ensures Timer(armed, fired, name, idle, seconds, now) == fired
  {
  }

  /** Reaping keeps every registered game backed by a durable record and vice versa. */
  lemma TimerKeepsBacked<G>(armed: Registry<G>, fired: Registry<G>, name: string,
                            idle: G -> Option<Time>, seconds: nat, now: Time)
    requires Backed(fired)
    ensures Backed(Timer(armed, fired, name, idle, seconds, now))
  {
  }

  /** A game registered under a fresh name and already expired when a timer armed right after
      the creation fires is reaped, and the registry is as before the creation. */
  lemma CreateThenFire<G>(reg: Registry<G>, name: string, game: G, idle: G -> Option<Time>,
                          seconds: nat, now: Time)
    requires Backed(reg) && name !in reg.games && Expired(idle(game), now, seconds)
    ensures Create(reg, name, game).Success?
    ensures var created := Create(reg, name, game).value;
            Timer(created, created, name, idle, seconds, now) == reg
  {
    var created := Create(reg, name, game).value;
    assert created.games - {name} == reg.games;
    assert created.stored - {name} == reg.stored;
  }
}
