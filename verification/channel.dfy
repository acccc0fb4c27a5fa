/** The update events a session streams to its clients, and the per-connection FIFO outbox
    (an unbounded `asyncio.Queue`) that carries them. */
module Channel {
  import opened Wrappers

  /** Every update carries a reconnection hint of 5 unless stated otherwise. */
  const DefaultRetry: int := 5

  /** One roster line of a `player_update`. */
  datatype PlayerInfo = PlayerInfo(name: string, role: string, lover: bool, mayor: bool)

  /** The roster line for a player: role and flags are never revealed, so they keep their defaults. */
  function InfoFor(name: string): PlayerInfo
  {
    PlayerInfo(name, "unknown", false, false)
  }

  /** The discriminated union of delivered updates, one tag per shape. A phase update's JSON
      object is kept as a flat string map. */
  datatype Update =
    | Message(text: string, retry: int)
    | PhaseUpdate(data: map<string, string>, retry: int)
    | PlayerUpdate(roster: seq<PlayerInfo>, retry: int)
  {
    /** The `event` tag the update is serialised with. */
    function Event(): string
    {
      match this
      case Message(_, _) => "message"
      case PhaseUpdate(_, _) => "phase_update"
      case PlayerUpdate(_, _) => "player_update"
    }
  }

  /** A queue's pending contents, oldest first. */
  type Queue = seq<Update>

  /** `queue.get()`: the oldest pending update and what is left, or None when the consumer
      would have to suspend because nothing is pending. */
  function Get(q: Queue): (r: Option<(Update, Queue)>)
    ensures r.None? <==> |q| == 0
    ensures r.Some? ==> [r.value.0] + r.value.1 == q
  {
    if |q| == 0 then None else Some((q[0], q[1..]))
  }

  /** `queue.put(u)`: never suspends. A later update never overtakes one already pending. */
  function Put(q: Queue, u: Update): (r: Queue)
    ensures |q| == 0 ==> Get(r) == Some((u, []))
    ensures |q| > 0 ==> Get(r).Some? && Get(r).value.0 == q[0]
    ensures Take(r, |q|) == Some((q, [u]))
    ensures |r| == |q| + 1
  {
    TakePrefix(q, [u]);
    q + [u]
  }

  /** Several producers' puts in the order they happen. */
  function PutAll(q: Queue, us: seq<Update>): Queue
    decreases |us|
  {
    if |us| == 0 then q else PutAll(Put(q, us[0]), us[1..])
  }

  /** `n` successive `get`s by the single consumer: the updates received, in order, and the
      queue left behind; None if the consumer would suspend before the n-th one. */
  function Take(q: Queue, n: nat): Option<(seq<Update>, Queue)>
    decreases n
  {
    if n == 0 then Some(([], q))
    else
      match Get(q)
      case None => None
      case Some((u, rest)) =>
        match Take(rest, n - 1)
        case None => None
        case Some((us, left)) => Some(([u] + us, left))
  }

  lemma {:induction false} PutAllAppends(q: Queue, us: seq<Update>)
    ensures PutAll(q, us) == q + us
    decreases |us|
  {
    if |us| > 0 {
      PutAllAppends(Put(q, us[0]), us[1..]);
      assert Put(q, us[0]) + us[1..] == q + us;
    }
  }

  lemma {:induction false} TakePrefix(s: Queue, t: Queue)
    ensures Take(s + t, |s|) == Some((s, t))
    decreases |s|
  {
    if |s| > 0 {
      assert (s + t)[1..] == s[1..] + t;
      assert Get(s + t) == Some((s[0], s[1..] + t));
      TakePrefix(s[1..], t);
      assert Take(s + t, |s|) == Some(([s[0]] + s[1..], t));
      assert [s[0]] + s[1..] == s;
    } else {
      assert s + t == t && s == [];
    }
  }

  /** FIFO delivery: whatever was pending is received first, then the new updates in exactly
      the order they were put, and nothing else. */
  lemma {:induction false} FirstInFirstOut(q: Queue, us: seq<Update>)
    ensures Take(PutAll(q, us), |q|) == Some((q, us))
    ensures Take(PutAll(q, us), |q| + |us|) == Some((q + us, []))
  {
    PutAllAppends(q, us);
    TakePrefix(q, us);
    TakePrefix(q + us, []);
    assert q + us + [] == q + us;
  }
}
