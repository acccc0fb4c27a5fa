/** Identifiers, clock ticks and error kinds shared by both variants of the session engine. */
module Common {

  /** A client id is a 128-bit UUID; only equality between ids is ever used. */
  newtype ClientId = x: int | 0 <= x < 0x1_0000_0000_0000_0000_0000_0000_0000_0000

  /** Wall-clock time in whole ticks; `datetime` differences become integer subtraction. */
  type Time = nat

  /** The exceptions the engine raises towards the caller of a request. */
  datatype Error =
    | IdInUse                                   // HTTP 418 "ID already in use"
    | IdConnected                               // HTTP 418 "ID is already connected"
    | NotConnected                              // HTTP 418 "You are not connected to this game"
    | InvalidEvent                              // HTTP 418 "Invalid event name"
    | GameExists(name: string)                  // HTTP 418 "A game with the name <name> already exists"
    | WrongPhaseType                            // ValueError "wrong phase type"
    | MissingAttribute(owner: string, attribute: string)  // an AttributeError escaping as HTTP 500

  /** The text the caller sees for each error. */
  function Detail(e: Error): string
  {
    match e
    case IdInUse => "ID already in use"
    case IdConnected => "ID is already connected"
    case NotConnected => "You are not connected to this game"
    case InvalidEvent => "Invalid event name"
    case GameExists(name) => "A game with the name " + name + " already exists"
    case WrongPhaseType => "wrong phase type"
    case MissingAttribute(owner, attribute) => "'" + owner + "' object has no attribute '" + attribute + "'"
  }
}
