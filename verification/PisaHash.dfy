/**
 * The accountability contract (sol/contracts/PISAHash.sol): responses are recorded in the data registry, customers with
 * an unanswered receipt seek recourse, and cheated customers are refunded or the deposit is forfeited.
 *
 * Hashes are taken as injective, so an appointment stands for its own hash. What signatures recover to and what the
 * handlers of a mode answer are inputs of a call. `None` stands for a call that reverts.
 */
module PisaHash {
  import opened Wrappers
  import opened DataRegistry

  datatype PisaId = PisaId(sc: Address, cus: Address, appointmentId: Word)

  datatype Appointment = Appointment(
    sc: Address, cus: Address, startTime: Word, finishTime: Word, challengeTime: Word, appointmentId: Word, nonce: Word,
    call: string, refund: Word, gas: Word, mode: Word, eventAddress: Address, topics: string,
    precondition: string, postcondition: string, h: string)

  function IdOf(a: Appointment): PisaId {
    PisaId(a.sc, a.cus, a.appointmentId)
  }

  /** What `respond` writes to the registry. */
  datatype CallLog = CallLog(time: Word, nonce: Word, appointment: Appointment)

  datatype Cheated = Cheated(nonce: Word, refund: Word, refundBy: Word, triggered: bool)

  const NOT_CHEATED := Cheated(0, 0, 0, false)

  datatype Flag = OK | CHEATED

  /** Which handlers an installed mode has. */
  datatype Mode = Mode(precondition: bool, postcondition: bool, decoder: bool)

  datatype Config = Config(self: Address, admin: Address, cheatedTimer: Word, challengeBond: Word)

  type Registry = Shards<PisaId, CallLog>

  datatype State = State(registry: Registry, cheated: map<PisaId, Cheated>, pendingRefunds: Word,
                         refunds: map<Address, Word>, flag: Flag, frozen: bool, watchers: set<Address>,
                         modes: map<Word, Mode>)

  function CheatedAt(s: State, id: PisaId): Cheated {
    if id in s.cheated then s.cheated[id] else NOT_CHEATED
  }

  function RefundOf(s: State, who: Address): Word {
    if who in s.refunds then s.refunds[who] else 0
  }

  // ---- Looking for a response --------------------------------------------------------------------------

  datatype Window = Window(start: Word, end: Word, length: Word)

  /** Whether a list shows a response: a later nonce, or this very appointment in the window. */
  function Shown(logs: seq<CallLog>, nonce: Word, a: Appointment, w: Window): Option<bool> {
    if logs == [] then Some(false)
    else if logs[0].nonce >= nonce then Some(true)
    else if logs[0].time == 0 then None
    else if w.start <= logs[0].time <= w.end && logs[0].appointment == a then Some(true)
    else Shown(logs[1..], nonce, a, w)
  }

  /** Looks through the shards from `i` on; reading them can reset them. */
  function Responded(r: Registry, now: Word, self: Address, i: nat, nonce: Word, a: Appointment, w: Window)
    : (Registry, Option<bool>)
    decreases TOTAL_SHARDS - i
  {
    if i >= TOTAL_SHARDS then (r, Some(false))
    else
      var (after, logs) := Fetched(r, now, i, self, IdOf(a));
      match Shown(logs, nonce, a, w)
      case Some(false) => Responded(after, now, self, i + 1, nonce, a, w)
      case other => (after, other)
  }

  // ---- Calls -------------------------------------------------------------------------------------------

  /** One call with its inputs. `signer` stands for what a signature recovers to. */
  datatype Call =
    | Respond(sender: Address, appointment: Appointment, signer: Address, canRespond: bool, enoughGas: bool)
    | Recourse(value: Word, appointment: Appointment, preimage: bool, towerSigner: Address, customerSigner: Address,
               failed: bool, decoded: Window)
    | Cancel(appointment: Appointment, signer: Address)
    | Refund(sc: Address, cus: Address, appointmentId: Word, value: Word)
    | Forfeit(id: PisaId)
    | InstallMode(mode: Word, handlers: Mode, timestamp: Word, signer: Address)
    | InstallWatcher(watcher: Address, timestamp: Word, signer: Address)
    | FailSafe(approved: bool)
    /** Anyone else uses the registry. */
    | Elsewhere(access: Access<PisaId, CallLog>)

  function Responding(s: State, c: Config, now: Word, sender: Address, a: Appointment, signer: Address, canRespond: bool,
                    enoughGas: bool): Option<State>
  {
    if sender !in s.watchers then None
    else if a.cus != signer then None
    else if a.mode in s.modes && s.modes[a.mode].precondition && !canRespond then None
    else if ShardIndex(now) !in s.registry then None
    else if !enoughGas then None
    else Some(s.(registry := Recorded(s.registry, now, c.self, IdOf(a), CallLog(now, a.nonce, a))))
  }

  /** The window in which a response counts, or `None` if the decoded one is not acceptable. */
  function WindowFor(m: Mode, a: Appointment, decoded: Window): Option<Window> {
    var w := if m.decoder then decoded else Window(a.startTime, a.finishTime, 0);
    if m.decoder && (decoded.length < a.challengeTime || Minus(decoded.end, decoded.start) < a.challengeTime
                     || decoded.start < a.startTime || decoded.start >= a.finishTime)
    then None
    else if w.start == 0 || w.end == 0 then None
    else Some(w)
  }

  function SeekingRecourse(s: State, c: Config, now: Word, value: Word, a: Appointment, preimage: bool, towerSigner: Address,
                     customerSigner: Address, failed: bool, decoded: Window): Option<State>
  {
    var id := IdOf(a);
    if s.frozen || value != c.challengeBond then None
    else if a.mode !in s.modes || !preimage then None
    else if Plus(a.startTime, INTERVAL) <= now || now <= a.finishTime then None
    else if a.nonce <= CheatedAt(s, id).nonce then None
    else if towerSigner !in s.watchers || customerSigner != a.cus then None
    else if s.modes[a.mode].postcondition && !failed then None
    else
      match WindowFor(s.modes[a.mode], a, decoded)
      case None => None
      case Some(w) =>
        match Responded(s.registry, now, c.self, 0, a.nonce, a, w)
        case (registry, Some(false)) =>
          Some(s.(registry := registry,
                  pendingRefunds := if CheatedAt(s, id).triggered then s.pendingRefunds else Plus(s.pendingRefunds, 1),
                  cheated := s.cheated[id := Cheated(a.nonce, Plus(a.refund, c.challengeBond),
                                                     Plus(now, c.cheatedTimer), true)]))
        case (_, _) => None
  }

  function Cancelling(s: State, c: Config, a: Appointment, signer: Address): Option<State> {
    var id := IdOf(a);
    if a.cus != signer || a.nonce <= CheatedAt(s, id).nonce then None
    else Some(s.(refunds := s.refunds[c.admin := Plus(RefundOf(s, c.admin), c.challengeBond)],
                 cheated := s.cheated[id := Cheated(a.nonce, 0, 0, false)],
                 pendingRefunds := Minus(s.pendingRefunds, 1)))
  }

  function Refunding(s: State, id: PisaId, value: Word): Option<State> {
    var record := CheatedAt(s, id);
    if s.pendingRefunds == 0 || record.refund != value || !record.triggered then None
    else Some(s.(cheated := s.cheated[id := Cheated(record.nonce, 0, 0, false)],
                 refunds := s.refunds[id.cus := Plus(RefundOf(s, id.cus), value)],
                 pendingRefunds := Minus(s.pendingRefunds, 1)))
  }

  function Forfeiting(s: State, now: Word, id: PisaId): Option<State> {
    var record := CheatedAt(s, id);
    if s.frozen || s.pendingRefunds == 0 then None
    else if !record.triggered || record.refund == 0 || record.refundBy == 0 || now <= record.refundBy then None
    else Some(s.(cheated := s.cheated[id := Cheated(record.nonce, 0, 0, false)], flag := CHEATED))
  }

  function Step(s: State, c: Config, now: Word, call: Call): Option<State> {
    match call
    case Respond(sender, a, signer, canRespond, enoughGas) => Responding(s, c, now, sender, a, signer, canRespond, enoughGas)
    case Recourse(value, a, preimage, tower, customer, failed, decoded) =>
      SeekingRecourse(s, c, now, value, a, preimage, tower, customer, failed, decoded)
    case Cancel(a, signer) => Cancelling(s, c, a, signer)
    case Refund(sc, cus, appointmentId, value) => Refunding(s, PisaId(sc, cus, appointmentId), value)
    case Forfeit(id) => Forfeiting(s, now, id)
    case InstallMode(mode, handlers, timestamp, signer) =>
      if mode in s.modes || timestamp <= now || signer != c.admin then None
      else Some(s.(modes := s.modes[mode := handlers]))
    case InstallWatcher(watcher, timestamp, signer) =>
      if watcher in s.watchers || timestamp <= now || signer != c.admin then None
      else Some(s.(watchers := s.watchers + {watcher}))
    case FailSafe(approved) => if approved then Some(s.(frozen := true, flag := OK)) else None
    case Elsewhere(a) =>
      if a.block != now || (a.Set? && a.sender == c.self) || !(forall i: nat :: i < TOTAL_SHARDS ==> i in s.registry) then None
      else Some(s.(registry := AfterAccess(s.registry, a)))
  }

  /** A reverted call changes nothing. */
  function After(s: State, c: Config, now: Word, call: Call): State {
    match Step(s, c, now, call)
    case Some(t) => t
    case None => s
  }

  /** A call and the block it is made in. */
  datatype Timed = Timed(block: Word, call: Call)

  function Run(s: State, c: Config, calls: seq<Timed>): State
    decreases |calls|
  {
    if calls == [] then s else Run(After(s, c, calls[0].block, calls[0].call), c, calls[1..])
  }
}
