/** The module-level server logic of the complete variant: the `games` registry of sessions,
    `create_game`, and the inactivity timer's decision. */
module Server {
  import opened Wrappers
  import opened Common
  import opened Registries
  import Session

  /** The wait of the timer armed by `create_game`. */
  const CreateTimeout: nat := 30
  /** The wait of the timer armed when a client's stream ends. */
  const DisconnectTimeout: nat := 30

  /** Every registered game is stored under its own name, keeps the session invariant, and has a
      saved JSON file; every saved file belongs to a registered game. */
  ghost predicate Valid(reg: Registry<Session.Game>)
  {
    && Backed(reg)
    && forall n :: n in reg.games ==> reg.games[n].name == n && Session.Valid(reg.games[n])
  }

  /** `create_game`: refused for a name already registered; otherwise a fresh idle lobby is
      registered and saved under that name and every other game is left alone. */
  function CreateGame(reg: Registry<Session.Game>, name: string, now: Time): (r: Result<Registry<Session.Game>, Error>)
    ensures r.Failure? <==> name in reg.games
    ensures r.Failure? ==> r.error == GameExists(name)
    ensures r.Success? ==>
              && r.value.games.Keys == reg.games.Keys + {name}
              && r.value.games[name] == Session.NewGame(name, now)
              && r.value.games[name].inactiveSince == Some(now)
              && (forall n :: n in reg.games ==> r.value.games[n] == reg.games[n])
              && r.value.stored == reg.stored + {name}
  {
    Create(reg, name, Session.NewGame(name, now))
  }

  /** What the timer reads of a game: since when it has been idle, if it is. */
  function IdleSince(g: Session.Game): Option<Time>
  {
    g.inactiveSince
  }

  /** `game_inactivity_timer` for the game called `name`: `armed` is the registry when the timer
      task starts, `fired` the registry after its sleep of `seconds`, at time `now`. */
  function InactivityTimer(armed: Registry<Session.Game>, fired: Registry<Session.Game>, name: string,
                           seconds: nat, now: Time): (r: Registry<Session.Game>)
    ensures r != fired ==>
              && name in armed.games && armed.games[name].inactiveSince.Some?
              && name in fired.games && fired.games[name].inactiveSince.Some?
              && now - fired.games[name].inactiveSince.value > seconds
    ensures r == fired || (r.games == fired.games - {name} && r.stored == fired.stored - {name})
    ensures && name in armed.games && armed.games[name].inactiveSince.Some?
            && name in fired.games && Expired(fired.games[name].inactiveSince, now, seconds)
            ==> name !in r.games && r.games == fired.games - {name} && r.stored == fired.stored - {name}
  {
    Timer(armed, fired, name, IdleSince, seconds, now)
  }

  lemma CreatePreservesValid(reg: Registry<Session.Game>, name: string, now: Time)
    requires Valid(reg)
    ensures CreateGame(reg, name, now).Success? ==> Valid(CreateGame(reg, name, now).value)
  {
    if name !in reg.games {
      var r := CreateGame(reg, name, now).value;
      assert r.games.Keys == r.stored;
      forall n | n in r.games
        ensures r.games[n].name == n && Session.Valid(r.games[n])
      {
        if n != name {
          assert r.games[n] == reg.games[n];
        }
      }
    }
  }

  lemma TimerPreservesValid(armed: Registry<Session.Game>, fired: Registry<Session.Game>, name: string,
                            seconds: nat, now: Time)
    requires Valid(fired)
    ensures Valid(InactivityTimer(armed, fired, name, seconds, now))
  {
  }

  /** Creating the same name twice: the second attempt is refused and exactly one game of that
      name, the first one, stays registered. */
  lemma DuplicateCreateRefused(reg: Registry<Session.Game>, name: string, t1: Time, t2: Time)
    requires name !in reg.games
    ensures CreateGame(reg, name, t1).Success?
    ensures var once := CreateGame(reg, name, t1).value;
            && CreateGame(once, name, t2) == Failure(GameExists(name))
            && once.games[name] == Session.NewGame(name, t1)
            && |once.games| == |reg.games| + 1
  {
    var once := CreateGame(reg, name, t1).value;
    assert once.games.Keys == reg.games.Keys + {name};
    assert |once.games.Keys| == |reg.games.Keys| + 1;
  }

  /** A game somebody connected to while the timer slept is not reaped: `connect` clears its
      idle timestamp, so the timer finds it active. */
  lemma ConnectDuringWaitSavesGame(armed: Registry<Session.Game>, fired: Registry<Session.Game>, name: string,
                                   id: ClientId, seconds: nat, now: Time)
    requires name in fired.games && Session.Connect(fired.games[name], id).Success?
    ensures var live := fired.(games := fired.games[name := Session.Connect(fired.games[name], id).value]);
            InactivityTimer(armed, live, name, seconds, now) == live
  {
  }

  /** A game whose last client left at `left` is reaped by a timer firing at `now` only if it
      has stayed idle since and strictly more than `seconds` ticks have passed. */
  lemma ReapNeedsFullTimeout(armed: Registry<Session.Game>, fired: Registry<Session.Game>, name: string,
                             id: ClientId, left: Time, seconds: nat, now: Time)
    requires name in fired.games && id in fired.games[name].connections
    requires |fired.games[name].connections| == 1 && now <= left + seconds
    ensures var idle := fired.(games := fired.games[name := Session.Disconnect(fired.games[name], id, left)]);
            InactivityTimer(armed, idle, name, seconds, now) == idle
  {
    var g := Session.Disconnect(fired.games[name], id, left);
    assert |g.connections| == 0;
    assert g.inactiveSince == Some(left);
  }

  /** A game nobody connects to is reaped by the timer `create_game` arms, once that timer fires
      more than `CreateTimeout` ticks later, and the registry is as before the creation. */
  lemma CreateThenReap(reg: Registry<Session.Game>, name: string, t: Time, now: Time)
    requires Backed(reg) && name !in reg.games && now > t + CreateTimeout
    ensures CreateGame(reg, name, t).Success?
    ensures var created := CreateGame(reg, name, t).value;
            InactivityTimer(created, created, name, CreateTimeout, now) == reg
  {
    CreateThenFire(reg, name, Session.NewGame(name, t), IdleSince, CreateTimeout, now);
  }

  /** The last client leaving at `left` arms a timer on the now idle game; if nothing happens
      before it fires more than `DisconnectTimeout` ticks later, the game is reaped. */
  lemma LastLeaveThenReap(reg: Registry<Session.Game>, name: string, id: ClientId, left: Time, now: Time)
    requires name in reg.games && reg.games[name].connections.Keys == {id}
    requires now > left + DisconnectTimeout
    ensures var idle := reg.(games := reg.games[name := Session.Disconnect(reg.games[name], id, left)]);
            name !in InactivityTimer(idle, idle, name, DisconnectTimeout, now).games
  {
    var g := Session.Disconnect(reg.games[name], id, left);
    assert g.connections.Keys == {};
    assert g.inactiveSince == Some(left);
  }
}
