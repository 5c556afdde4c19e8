/**
 * When each call of the accountability contract succeeds, written from its inputs and the state alone, and what the calls
 * do to balances, flags and the fail-safe.
 */
module PisaHashCalls {
  import opened Wrappers
  import opened DataRegistry
  import opened PisaHash
  import opened PisaHashTheorems

  // ---- When a recourse succeeds ------------------------------------------------------------------------

  /**
   * The time window [start, end] in which a response counts. Without a decoder it is that of the appointment. With one
   * it is the decoded one, which lasts as long as the appointment asks for and starts within the appointment.
   */
  ghost predicate CountsFrom(m: Mode, a: Appointment, decoded: Window, start: Word, end: Word) {
    && start != 0 && end != 0
    && if !m.decoder then start == a.startTime && end == a.finishTime
       else
         && start == decoded.start && end == decoded.end
         && decoded.length >= a.challengeTime && (decoded.end - decoded.start) % WORD >= a.challengeTime
         && a.startTime <= decoded.start < a.finishTime
  }

  /** Every shard that lists an answer to the recourse is two intervals old or older, up to wrap-around. */
  ghost predicate AnswersAreOld(r: Registry, now: Word, self: Address, a: Appointment, start: Word, end: Word) {
    forall i :: 0 <= i < TOTAL_SHARDS && ShardAnswers(r, self, a, Window(start, end, 0), i) ==>
      (now - r[i].creationBlock) % WORD >= 2 * INTERVAL
  }

  lemma WindowIff(m: Mode, a: Appointment, decoded: Window)
    ensures match WindowFor(m, a, decoded)
      case Some(w) => forall start, end :: CountsFrom(m, a, decoded, start, end) <==> start == w.start && end == w.end
      case None => forall start, end :: !CountsFrom(m, a, decoded, start, end)
  {
  }

  lemma SameAnswers(r: Registry, self: Address, a: Appointment, w: Window, i: nat)
    ensures ShardAnswers(r, self, a, w, i) == ShardAnswers(r, self, a, Window(w.start, w.end, 0), i)
  {
    var plain := Window(w.start, w.end, 0);
    assert forall log :: AnswersAlone(log, a, w) == AnswersAlone(log, a, plain);
    if i in r {
      var logs := RecordsOf(r[i], self, PisaId(a.sc, a.cus, a.appointmentId));
      assert forall j :: 0 <= j < |logs| ==> AnswersAlone(logs[j], a, w) == AnswersAlone(logs[j], a, plain);
    }
  }

  lemma FindsNothingIff(r: Registry, now: Word, self: Address, a: Appointment, w: Window)
    requires Complete(r)
    ensures Responded(r, now, self, 0, a.nonce, a, w).1 == Some(false) <==> AnswersAreOld(r, now, self, a, w.start, w.end)
  {
    LookingFindsNothingIff(r, now, self, 0, a, w);
    forall i ensures ShardAnswers(r, self, a, w, i) == ShardAnswers(r, self, a, Window(w.start, w.end, 0), i) {
      SameAnswers(r, self, a, w, i);
    }
    hide ShardAnswers, Responded;
  }

  /** The nonce that a receipt for this appointment has to exceed. */
  ghost predicate Newer(s: State, a: Appointment) {
    var id := PisaId(a.sc, a.cus, a.appointmentId);
    a.nonce > if id in s.cheated then s.cheated[id].nonce else 0
  }

  /**
   * A recourse succeeds if and only if the contract is not frozen, bond, receipt and signatures are right, it is made
   * after the appointment and less than an interval after its start, the nonce is new, the handlers agree, and nothing
   * that answers it in its time window is left in a shard that has not expired.
   */
  lemma RecourseIff(s: State, c: Config, now: Word, call: Call)
    requires Complete(s.registry) && call.Recourse?
    ensures var a := call.appointment;
      Step(s, c, now, call).Some? <==>
        && !s.frozen && call.value == c.challengeBond && call.preimage
        && call.towerSigner in s.watchers && call.customerSigner == a.cus
        && a.finishTime < now < (a.startTime + INTERVAL) % WORD && Newer(s, a)
        && a.mode in s.modes && (s.modes[a.mode].postcondition ==> call.failed)
        && exists start: Word, end: Word :: CountsFrom(s.modes[a.mode], a, call.decoded, start, end)
             && AnswersAreOld(s.registry, now, c.self, a, start, end)
  {
    var a := call.appointment;
    if a.mode in s.modes {
      WindowIff(s.modes[a.mode], a, call.decoded);
      if WindowFor(s.modes[a.mode], a, call.decoded).Some? {
        var w := WindowFor(s.modes[a.mode], a, call.decoded).value;
        FindsNothingIff(s.registry, now, c.self, a, w);
        assert CountsFrom(s.modes[a.mode], a, call.decoded, w.start, w.end);
      }
    }
    hide WindowFor, CountsFrom, AnswersAreOld, Responded;
  }

  /** A shard that is two intervals old has been killed and created anew. */
  ghost predicate RefreshedAt(r: Registry, after: Registry, now: Word, i: nat) {
    && i in r && i in after
    && after[i] == if (now - r[i].creationBlock) % WORD >= 2 * INTERVAL then Shard(now, map[]) else r[i]
  }

  ghost predicate RefreshedFrom(r: Registry, after: Registry, now: Word, i: nat) {
    && after.Keys == r.Keys
    && (forall j :: i <= j < TOTAL_SHARDS ==> RefreshedAt(r, after, now, j))
    && (forall j :: j in r && !(i <= j < TOTAL_SHARDS) ==> after[j] == r[j])
  }

  lemma FetchingRefreshes(r: Registry, now: Word, self: Address, i: nat, id: PisaId)
    requires Complete(r) && i < TOTAL_SHARDS
    ensures var next := Fetched(r, now, i, self, id).0;
      && Complete(next) && next.Keys == r.Keys && RefreshedAt(r, next, now, i)
      && forall j :: j in r && j != i ==> next[j] == r[j]
  {
  }

  lemma RefreshedFurther(r: Registry, next: Registry, after: Registry, now: Word, i: nat)
    requires Complete(r) && i < TOTAL_SHARDS && next.Keys == r.Keys && RefreshedAt(r, next, now, i)
    requires forall j :: j in r && j != i ==> next[j] == r[j]
    requires RefreshedFrom(next, after, now, i + 1)
    ensures RefreshedFrom(r, after, now, i)
  {
    forall j | i <= j < TOTAL_SHARDS ensures RefreshedAt(r, after, now, j) {
      assert i + 1 <= j ==> RefreshedAt(next, after, now, j);
    }
  }

  lemma {:induction false} LookingRefreshes(r: Registry, now: Word, self: Address, i: nat, nonce: Word, a: Appointment, w: Window)
    requires Complete(r) && Responded(r, now, self, i, nonce, a, w).1 == Some(false)
    ensures RefreshedFrom(r, Responded(r, now, self, i, nonce, a, w).0, now, i)
    decreases TOTAL_SHARDS - i
  {
    hide Shown, Fetched, RefreshedFrom, RefreshedAt, Complete;
    if i < TOTAL_SHARDS {
      var next := Fetched(r, now, i, self, IdOf(a)).0;
      FetchingRefreshes(r, now, self, i, IdOf(a));
      LookingRefreshes(next, now, self, i + 1, nonce, a, w);
      RefreshedFurther(r, next, Responded(r, now, self, i, nonce, a, w).0, now, i);
    } else {
      NothingRefreshed(r, now, i);
    }
  }

  lemma NothingRefreshed(r: Registry, now: Word, i: nat)
    requires i >= TOTAL_SHARDS
    ensures RefreshedFrom(r, r, now, i)
  {
  }

  /** A recourse that succeeds refreshes the registry, counts a newly triggered record and writes the one of its id. */
  lemma RecourseEffect(s: State, c: Config, now: Word, call: Call)
    requires Complete(s.registry) && call.Recourse? && Step(s, c, now, call).Some?
    ensures var (t, a) := (Step(s, c, now, call).value, call.appointment);
      var id := PisaId(a.sc, a.cus, a.appointmentId);
      && RefreshedFrom(s.registry, t.registry, now, 0)
      && t.pendingRefunds
         == (if id in s.cheated && s.cheated[id].triggered then s.pendingRefunds else (s.pendingRefunds + 1) % WORD)
      && t == s.(registry := t.registry, pendingRefunds := t.pendingRefunds,
                 cheated := s.cheated[id := Cheated(a.nonce, (a.refund + c.challengeBond) % WORD,
                                                    (now + c.cheatedTimer) % WORD, true)])
  {
    var a := call.appointment;
    LookingRefreshes(s.registry, now, c.self, 0, a.nonce, a, WindowFor(s.modes[a.mode], a, call.decoded).value);
    hide WindowFor, Responded;
  }

  // ---- Others ------------------------------------------------------------------------------------------

  /** Others can read everywhere, and write under their own addresses only; this goes through whenever both shards exist. */
  lemma OthersIff(s: State, c: Config, now: Word, access: Access<PisaId, CallLog>)
    requires Complete(s.registry)
    ensures Step(s, c, now, Elsewhere(access)).Some?
      <==> access.block == now && (access.Set? ==> access.sender != c.self)
    ensures Step(s, c, now, Elsewhere(access)).Some? ==>
      Step(s, c, now, Elsewhere(access)).value == s.(registry := AfterAccess(s.registry, access))
    ensures Step(s, c, now, Elsewhere(access)).Some? ==>
      var t := Step(s, c, now, Elsewhere(access)).value;
      forall i, id :: 0 <= i < TOTAL_SHARDS ==>
        i in t.registry && (RecordsOf(t.registry[i], c.self, id) == RecordsOf(s.registry[i], c.self, id)
                            || RecordsOf(t.registry[i], c.self, id) == [])
  {
  }

  // ---- When the other calls succeed --------------------------------------------------------------------

  /**
   * A response is accepted if and only if a watcher sends it, the customer signed it, a precondition handler of an
   * installed mode approves, and there is gas. It adds one record, of this block, to those of the appointment.
   */
  lemma RespondIff(s: State, c: Config, now: Word, call: Call)
    requires Complete(s.registry) && call.Respond?
    ensures var a := call.appointment;
      && (Step(s, c, now, call).Some? <==>
            && call.sender in s.watchers && call.signer == a.cus && call.enoughGas
            && (a.mode in s.modes && s.modes[a.mode].precondition ==> call.canRespond))
      && (Step(s, c, now, call).Some? ==>
            var (t, i) := (Step(s, c, now, call).value, (now / INTERVAL) % TOTAL_SHARDS);
            && t == s.(registry := t.registry) && t.registry.Keys == s.registry.Keys
            && (forall j :: j in s.registry && j != i ==> t.registry[j] == s.registry[j])
            && var (before, after) := (s.registry[i], t.registry[i]);
               var (id, log) := (PisaId(a.sc, a.cus, a.appointmentId), CallLog(now, a.nonce, a));
               if (now - before.creationBlock) % WORD >= 2 * INTERVAL
               then after == Shard(now, map[(c.self, id) := [log]])
               else after == before.(records := before.records[(c.self, id) := RecordsOf(before, c.self, id) + [log]]))
  {
    var log := CallLog(now, call.appointment.nonce, call.appointment);
    assert [] + [log] == [log];
  }

  /** A cancellation needs the customer's signature and a new nonce; a refund the exact amount of a triggered record. */
  lemma SettlementsIff(s: State, c: Config, now: Word, id: PisaId, a: Appointment, signer: Address, value: Word)
    ensures Step(s, c, now, Cancel(a, signer)).Some? <==> signer == a.cus && Newer(s, a)
    ensures Step(s, c, now, Refund(id.sc, id.cus, id.appointmentId, value)).Some?
      <==> s.pendingRefunds > 0 && id in s.cheated && s.cheated[id].triggered && s.cheated[id].refund == value
    ensures Step(s, c, now, Forfeit(id)).Some?
      <==> && !s.frozen && s.pendingRefunds > 0 && id in s.cheated && s.cheated[id].triggered
           && s.cheated[id].refund != 0 && 0 < s.cheated[id].refundBy < now
  {
  }

  /** Only the administrator installs modes and watchers, each once, with a signature dated ahead. */
  lemma InstallationsIff(s: State, c: Config, now: Word, mode: Word, handlers: Mode, watcher: Address, timestamp: Word,
                         signer: Address)
    ensures var r := Step(s, c, now, InstallMode(mode, handlers, timestamp, signer));
      && (r.Some? <==> mode !in s.modes && timestamp > now && signer == c.admin)
      && (r.Some? ==> r.value == s.(modes := s.modes[mode := handlers]))
    ensures var r := Step(s, c, now, InstallWatcher(watcher, timestamp, signer));
      && (r.Some? <==> watcher !in s.watchers && timestamp > now && signer == c.admin)
      && (r.Some? ==> r.value == s.(watchers := s.watchers + {watcher}))
  {
  }

  // ---- What calls do to money and flags ----------------------------------------------------------------

  /** What a call pays to someone: a refund to the customer, the bond of a cancelled receipt to the administrator. */
  ghost function Paid(s: State, c: Config, now: Word, call: Call, who: Address): nat {
    if Step(s, c, now, call).None? then 0
    else
      match call
      case Cancel(_, _) => if who == c.admin then c.challengeBond else 0
      case Refund(_, cus, _, value) => if who == cus then value else 0
      case _ => 0
  }

  /** Balances grow by what is paid, up to wrap-around, and by nothing else. */
  lemma BalanceRule(s: State, c: Config, now: Word, call: Call, who: Address)
    ensures RefundOf(After(s, c, now, call), who) == (RefundOf(s, who) + Paid(s, c, now, call, who)) % WORD
  {
    hide Responded, WindowFor, Recorded, AfterAccess;
  }

  ghost function PaidInAll(s: State, c: Config, calls: seq<Timed>, who: Address): nat
    decreases |calls|
  {
    if calls == [] then 0
    else Paid(s, c, calls[0].block, calls[0].call, who)
         + PaidInAll(After(s, c, calls[0].block, calls[0].call), c, calls[1..], who)
  }

  lemma {:induction false} RunPays(s: State, c: Config, calls: seq<Timed>, who: Address)
    ensures RefundOf(Run(s, c, calls), who) == (RefundOf(s, who) + PaidInAll(s, c, calls, who)) % WORD
    decreases |calls|
  {
    hide After, Paid;
    if calls != [] {
      var (next, p) := (After(s, c, calls[0].block, calls[0].call), Paid(s, c, calls[0].block, calls[0].call, who));
      BalanceRule(s, c, calls[0].block, calls[0].call, who);
      RunPays(next, c, calls[1..], who);
      AddModulo(RefundOf(s, who) + p, PaidInAll(next, c, calls[1..], who));
    }
  }

  /** From deployment on that is all that anyone is owed. */
  lemma OwedFromTheStart(registry: Registry, c: Config, calls: seq<Timed>, who: Address)
    ensures RefundOf(Run(Constructed(registry), c, calls), who) == PaidInAll(Constructed(registry), c, calls, who) % WORD
  {
    RunPays(Constructed(registry), c, calls, who);
  }

  lemma AddModulo(x: nat, y: nat)
    ensures (x % WORD + y) % WORD == (x + y) % WORD
  {
    assert x == x / WORD * WORD + x % WORD;
    assert (x + y) == (x % WORD + y) + x / WORD * WORD;
    MultipleAdded(x % WORD + y, x / WORD);
  }

  lemma {:induction false} MultipleAdded(z: nat, k: nat)
    ensures (z + k * WORD) % WORD == z % WORD
  {
    if k > 0 {
      MultipleAdded(z, k - 1);
      assert z + k * WORD == z + (k - 1) * WORD + WORD;
    }
  }

  /** A forfeit raises the flag, an approved fail-safe lowers it and freezes the contract, for good; nothing else does. */
  lemma FlagRule(s: State, c: Config, now: Word, call: Call)
    ensures var t := After(s, c, now, call);
      && (t.frozen <==> s.frozen || call == FailSafe(true))
      && (t.flag == CHEATED <==>
            (call.Forfeit? && Step(s, c, now, call).Some?) || (s.flag == CHEATED && call != FailSafe(true)))
  {
    hide Responded, WindowFor, Recorded, AfterAccess;
  }
}
