/** The phases of a game in the complete server variant, the requests a client can post, and the
    phase's dispatch of a request to its `on_<event>` handler, made an explicit table per phase. */
module Phases {
  import opened Wrappers
  import opened Common

  /** The payload of a `join` request. */
  datatype JoinData = JoinPlayer(name: string) | JoinSpectator

  /** A posted request; its payload shape is fixed by its event name. The role selection of
      `start` counts the `snor` and `nazi` roles; its free-form options are not kept. */
  datatype Post =
    | Join(data: JoinData)
    | Vote(name: string)
    | Start(snor: int, nazi: int)

  /** The event name a request is posted under. */
  function EventName(p: Post): string
  {
    match p
    case Join(_) => "join"
    case Vote(_) => "vote"
    case Start(_, _) => "start"
  }

  /** The phase classes; each has a fixed type tag. */
  datatype PhaseClass = LobbyClass | GameStartClass

  function TypeTag(c: PhaseClass): string
  {
    match c
    case LobbyClass => "lobby"
    case GameStartClass => "game_start"
  }

  /** A phase value. A game starts in the lobby. */
  datatype Phase = Lobby | GameStart(kaas: string)

  function ClassOf(p: Phase): PhaseClass
  {
    match p
    case Lobby => LobbyClass
    case GameStart(_) => GameStartClass
  }

  /** The `type` validator run when a phase of class `c` is built, e.g. from a saved game: a
      missing type takes the class's tag, the class's own tag is kept, anything else is refused. */
  function CheckType(c: PhaseClass, v: Option<string>): (r: Result<string, Error>)
    ensures r.Success? <==> v.None? || v.value == TypeTag(c)
    ensures r.Success? ==> r.value == TypeTag(c)
    ensures r.Failure? ==> r.error == WrongPhaseType
  {
    match v
    case None => Success(TypeTag(c))
    case Some(t) => if t != TypeTag(c) then Failure(WrongPhaseType) else Success(t)
  }

  /** The stored type tag tells the classes apart: a phase saved with its tag validates as its
      own class and as no other, and validating the validator's output changes nothing. */
  lemma CheckTypeSeparatesClasses(c: PhaseClass, d: PhaseClass, v: Option<string>)
    ensures CheckType(c, Some(TypeTag(d))).Success? <==> c == d
    ensures CheckType(c, v).Success? ==> CheckType(c, Some(CheckType(c, v).value)) == CheckType(c, v)
  {
  }

  /** The handlers a phase declares. */
  datatype Handler = OnStart

  /** The event name -> handler table of each phase: the lobby declares `start` only, the game
      start phase declares nothing. */
  function Handlers(p: Phase): map<string, Handler>
  {
    match p
    case Lobby => map["start" := OnStart]
    case GameStart(_) => map[]
  }

  /** The phase's `handle_post` lookup: the handler declared for the event, or `InvalidEvent`. */
  function Dispatch(p: Phase, event: string): (r: Result<Handler, Error>)
    ensures r.Success? <==> event in Handlers(p)
    ensures r.Success? ==> r.value == Handlers(p)[event]
    ensures r.Failure? ==> r.error == InvalidEvent
  {
    if event in Handlers(p) then Success(Handlers(p)[event]) else Failure(InvalidEvent)
  }

  /** Which posts reach a handler: in the lobby exactly `start`, in the game start phase none. */
  lemma DispatchAcceptsOnlyDeclared(p: Phase, post: Post)
    ensures Dispatch(p, EventName(post)).Success? <==> p.Lobby? && post.Start?
  {
  }
}
