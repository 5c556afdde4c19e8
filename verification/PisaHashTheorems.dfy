/** Accountability over every run of the contract. */
module PisaHashTheorems {
  import opened Wrappers
  import opened DataRegistry
  import opened PisaHash

  // ---- The nonce of a cheated record -------------------------------------------------------------------

  /** The appointment with which a call settles the record of `id`, if it can. */
  function Settles(call: Call): Option<Appointment> {
    match call
    case Recourse(_, a, _, _, _, _, _) => Some(a)
    case Cancel(a, _) => Some(a)
    case _ => None
  }

  /** A record's nonce moves up to that of a successful recourse or cancellation, and at no other time. */
  lemma NonceRule(s: State, c: Config, now: Word, call: Call, id: PisaId)
    ensures var before, after := CheatedAt(s, id).nonce, CheatedAt(After(s, c, now, call), id).nonce;
      if Step(s, c, now, call).Some? && Settles(call).Some? && IdOf(Settles(call).value) == id
      then before < after == Settles(call).value.nonce
      else before == after
  {
    match call
    case Recourse(value, a, preimage, tower, customer, failed, decoded) => hide Responded, WindowFor;
    case _ =>
  }

  lemma {:induction false} NoncesGrow(s: State, c: Config, calls: seq<Timed>, id: PisaId)
    ensures CheatedAt(s, id).nonce <= CheatedAt(Run(s, c, calls), id).nonce
    decreases |calls|
  {
    hide After, Step;
    if calls != [] {
      NonceRule(s, c, calls[0].block, calls[0].call, id);
      NoncesGrow(After(s, c, calls[0].block, calls[0].call), c, calls[1..], id);
    }
  }

  lemma {:induction false} RunInTwoParts(s: State, c: Config, xs: seq<Timed>, ys: seq<Timed>)
    ensures Run(s, c, xs + ys) == Run(Run(s, c, xs), c, ys)
    decreases |xs|
  {
    hide After;
    if xs == [] {
      assert xs + ys == ys;
    } else {
      assert (xs + ys)[0] == xs[0] && (xs + ys)[1..] == xs[1..] + ys;
      RunInTwoParts(After(s, c, xs[0].block, xs[0].call), c, xs[1..], ys);
    }
  }

  ghost predicate Succeeds(s: State, c: Config, calls: seq<Timed>, i: nat)
    requires i < |calls|
  {
    Step(Run(s, c, calls[..i]), c, calls[i].block, calls[i].call).Some?
  }

  /** A receipt wins recourse at most once, and never after one of the same appointment with a nonce as high. */
  lemma OneReceiptWinsOnce(s: State, c: Config, calls: seq<Timed>, i: nat, j: nat)
    requires i < j < |calls| && Succeeds(s, c, calls, i) && Succeeds(s, c, calls, j)
    requires Settles(calls[i].call).Some? && Settles(calls[j].call).Some?
    requires IdOf(Settles(calls[i].call).value) == IdOf(Settles(calls[j].call).value)
    ensures Settles(calls[i].call).value.nonce < Settles(calls[j].call).value.nonce
  {
    hide After, Step;
    var id := IdOf(Settles(calls[i].call).value);
    var si := Run(s, c, calls[..i]);
    var next := After(si, c, calls[i].block, calls[i].call);
    NonceRule(si, c, calls[i].block, calls[i].call, id);
    var between := calls[i + 1..j];
    assert calls[..j] == calls[..i] + ([calls[i]] + between);
    RunInTwoParts(s, c, calls[..i], [calls[i]] + between);
    assert ([calls[i]] + between)[1..] == between;
    NoncesGrow(next, c, between, id);
    NonceRule(Run(s, c, calls[..j]), c, calls[j].block, calls[j].call, id);
  }

  // ---- Pending refunds ---------------------------------------------------------------------------------

  ghost function Triggered(s: State): set<PisaId> {
    set id | id in s.cheated && s.cheated[id].triggered
  }

  /** Forfeits so far, and cancellations of records that were not triggered. */
  datatype Tally = Tally(forfeits: nat, vain: nat)

  ghost function Counted(t: Tally, s: State, c: Config, now: Word, call: Call): Tally {
    if Step(s, c, now, call).None? then t
    else if call.Forfeit? then t.(forfeits := t.forfeits + 1)
    else if call.Cancel? && !CheatedAt(s, IdOf(call.appointment)).triggered then t.(vain := t.vain + 1)
    else t
  }

  ghost function CountedAll(t: Tally, s: State, c: Config, calls: seq<Timed>): Tally
    decreases |calls|
  {
    if calls == [] then t
    else
      var now, call := calls[0].block, calls[0].call;
      CountedAll(Counted(t, s, c, now, call), After(s, c, now, call), c, calls[1..])
  }

  ghost function Owed(s: State, t: Tally): int {
    |Triggered(s)| + t.forfeits - t.vain
  }

  /** The counter is what is owed, up to wrap-around. */
  ghost predicate Balanced(s: State, t: Tally) {
    s.pendingRefunds == Owed(s, t) % WORD
  }

  lemma SuccessorWraps(x: int)
    ensures Plus(x % WORD, 1) == (x + 1) % WORD && Minus(x % WORD, 1) == (x - 1) % WORD
  {
  }

  lemma TriggeredAfter(s: State, t: State, id: PisaId, record: Cheated)
    requires t.cheated == s.cheated[id := record]
    ensures Triggered(t) == if record.triggered then Triggered(s) + {id} else Triggered(s) - {id}
    ensures id in Triggered(s) <==> CheatedAt(s, id).triggered
  {
  }

  /** A call that settles one record changes the count of triggered ones by that record. */
  lemma CountAfter(s: State, d: State, id: PisaId, record: Cheated)
    requires d.cheated == s.cheated[id := record]
    ensures var was := CheatedAt(s, id).triggered;
      |Triggered(d)| == |Triggered(s)| + (if record.triggered && !was then 1 else if was && !record.triggered then -1 else 0)
  {
    TriggeredAfter(s, d, id, record);
  }

  lemma StepKeepsBalance(s: State, t: Tally, c: Config, now: Word, call: Call)
    requires Balanced(s, t)
    ensures Balanced(After(s, c, now, call), Counted(t, s, c, now, call))
  {
    SuccessorWraps(Owed(s, t));
    hide Responded, WindowFor, Recorded, AfterAccess, Plus, Minus, Triggered;
    if Step(s, c, now, call).Some? {
      var d := Step(s, c, now, call).value;
      match call
      case Recourse(value, a, preimage, tower, customer, failed, decoded) => {
        CountAfter(s, d, IdOf(a), d.cheated[IdOf(a)]);
      }
      case Cancel(a, signer) => CountAfter(s, d, IdOf(a), Cheated(a.nonce, 0, 0, false));
      case Refund(sc, cus, n, value) => {
        var id := PisaId(sc, cus, n);
        CountAfter(s, d, id, Cheated(CheatedAt(s, id).nonce, 0, 0, false));
      }
      case Forfeit(id) => CountAfter(s, d, id, Cheated(CheatedAt(s, id).nonce, 0, 0, false));
      case _ => SameCheated(s, d);
    }
  }

  lemma SameCheated(s: State, d: State)
    requires d.cheated == s.cheated
    ensures Triggered(d) == Triggered(s)
  {
  }

  /** In every run pending refunds count the triggered records and the forfeits, less the cancellations in vain. */
  lemma {:induction false} RunKeepsBalance(s: State, t: Tally, c: Config, calls: seq<Timed>)
    requires Balanced(s, t)
    ensures Balanced(Run(s, c, calls), CountedAll(t, s, c, calls))
    decreases |calls|
  {
    hide After, Counted, Balanced;
    if calls != [] {
      var now, call := calls[0].block, calls[0].call;
      StepKeepsBalance(s, t, c, now, call);
      RunKeepsBalance(After(s, c, now, call), Counted(t, s, c, now, call), c, calls[1..]);
    }
  }

  /** A contract that was just deployed over any registry: nothing was cheated and nothing is pending. */
  function Constructed(registry: Registry): State {
    State(registry, map[], 0, map[], OK, false, {}, map[])
  }

  /** From deployment on; so as an integer the counter is exact if and only if what is owed is in range. */
  lemma PendingRefundsFromTheStart(registry: Registry, c: Config, calls: seq<Timed>)
    ensures var (s, t) := (Run(Constructed(registry), c, calls), CountedAll(Tally(0, 0), Constructed(registry), c, calls));
      Balanced(s, t) && (s.pendingRefunds == Owed(s, t) <==> 0 <= Owed(s, t) < WORD)
  {
    assert Triggered(Constructed(registry)) == {};
    RunKeepsBalance(Constructed(registry), Tally(0, 0), c, calls);
    hide Run, CountedAll, Owed;
  }

  /** A triggered record can be refunded with the exact value if and only if what is owed is not zero, or wrapped to it. */
  lemma RefundGoesThroughIff(s: State, t: Tally, c: Config, now: Word, id: PisaId)
    requires Balanced(s, t) && CheatedAt(s, id).triggered
    ensures Step(s, c, now, Refund(id.sc, id.cus, id.appointmentId, CheatedAt(s, id).refund)).Some?
      <==> Owed(s, t) % WORD != 0
  {
  }

  /** So without cancellations in vain every triggered record can be refunded. */
  lemma RefundGoesThrough(s: State, t: Tally, c: Config, now: Word, id: PisaId)
    requires Balanced(s, t) && CheatedAt(s, id).triggered && t.vain == 0 && Owed(s, t) < WORD
    ensures Step(s, c, now, Refund(id.sc, id.cus, id.appointmentId, CheatedAt(s, id).refund)).Some?
  {
    assert id in Triggered(s);
    RefundGoesThroughIff(s, t, c, now, id);
  }

  /** One cancellation in vain blocks the refund, and the forfeit, of the only triggered record. */
  lemma VainCancellationBlocksRefund(s: State, c: Config, now: Word, id: PisaId, a: Appointment, value: Word)
    requires Balanced(s, Tally(0, 0)) && Triggered(s) == {id} && IdOf(a) != id
    requires a.nonce > CheatedAt(s, IdOf(a)).nonce
    ensures var d := After(s, c, now, Cancel(a, a.cus));
      && CheatedAt(d, id) == CheatedAt(s, id) && CheatedAt(s, id).triggered
      && Step(d, c, now, Refund(id.sc, id.cus, id.appointmentId, value)) == None
      && Step(d, c, now, Forfeit(id)) == None
  {
    assert id in Triggered(s);
    assert IdOf(a) !in Triggered(s);
  }

  // ---- What a successful recourse leads to -------------------------------------------------------------

  lemma RecourseRecords(s: State, c: Config, now: Word, recourse: Call)
    requires recourse.Recourse? && Step(s, c, now, recourse).Some?
    ensures var a, d := recourse.appointment, Step(s, c, now, recourse).value;
      && CheatedAt(d, IdOf(a)) == Cheated(a.nonce, Plus(a.refund, c.challengeBond), Plus(now, c.cheatedTimer), true)
      && d.refunds == s.refunds && !d.frozen
  {
    hide Responded, WindowFor;
  }

  /**
   * After a successful recourse the customer is owed the refund of the appointment and the bond: exactly that amount can
   * be refunded, once, and goes to the customer; and from the end of the timer on, not before, the deposit can be
   * forfeited.
   */
  lemma RecourseOpensRefund(s: State, c: Config, now: Word, recourse: Call, later: Word, value: Word)
    requires recourse.Recourse? && Step(s, c, now, recourse).Some?
    requires recourse.appointment.refund + c.challengeBond < WORD && now + c.cheatedTimer < WORD
    ensures var a, d := recourse.appointment, Step(s, c, now, recourse).value;
      var refund := Refund(a.sc, a.cus, a.appointmentId, value);
      && (Step(d, c, later, refund).Some? <==> value == a.refund + c.challengeBond && d.pendingRefunds != 0)
      && (Step(d, c, later, refund).Some? ==>
            var e := Step(d, c, later, refund).value;
            && RefundOf(e, a.cus) == Plus(RefundOf(s, a.cus), a.refund + c.challengeBond)
            && (forall who :: who != a.cus ==> RefundOf(e, who) == RefundOf(s, who))
            && Step(e, c, later, refund) == None && Step(e, c, later, Forfeit(IdOf(a))) == None)
      && (Step(d, c, later, Forfeit(IdOf(a))).Some? <==>
            && later > now + c.cheatedTimer && d.pendingRefunds != 0
            && a.refund + c.challengeBond != 0 && now + c.cheatedTimer != 0)
      && (Step(d, c, later, Forfeit(IdOf(a))).Some? ==> Step(d, c, later, Forfeit(IdOf(a))).value.flag == CHEATED)
  {
    RecourseRecords(s, c, now, recourse);
    hide SeekingRecourse;
  }

  // ---- Honest watchers ---------------------------------------------------------------------------------

  lemma {:induction false} ShownWithLaterNonce(logs: seq<CallLog>, log: CallLog, nonce: Word, a: Appointment, w: Window)
    requires log in logs && log.nonce >= nonce
    ensures Shown(logs, nonce, a, w) != Some(false)
    decreases |logs|
  {
    if logs[0].nonce < nonce {
      assert log in logs[1..];
      ShownWithLaterNonce(logs[1..], log, nonce, a, w);
    }
  }

  /** Looking through the shards does not remove a record whose shard has not expired. */
  lemma {:induction false} LookingKeepsRecord(r: Registry, now: Word, self: Address, i: nat, nonce: Word, a: Appointment,
                                              w: Window, k: nat, c: Word, id: PisaId, log: CallLog)
    requires Sane(r) && Holds(r, k, c, self, id, log) && c <= now < c + INTERVAL * 2 && now < WORD / 2
    ensures Holds(Responded(r, now, self, i, nonce, a, w).0, k, c, self, id, log)
    ensures Sane(Responded(r, now, self, i, nonce, a, w).0)
    decreases TOTAL_SHARDS - i
  {
    if i < TOTAL_SHARDS {
      var next := Fetched(r, now, i, self, IdOf(a)).0;
      AccessKeepsRecord(r, Fetch(now, i, self, IdOf(a)), k, c, self, id, log);
      assert AfterAccess(r, Fetch(now, i, self, IdOf(a))) == next;
      LookingKeepsRecord(next, now, self, i + 1, nonce, a, w, k, c, id, log);
    }
  }

  /** A record with a nonce as high, in a shard that has not expired, is found. */
  lemma {:induction false} LookingFindsRecord(r: Registry, now: Word, self: Address, i: nat, nonce: Word, a: Appointment,
                                              w: Window, k: nat, c: Word, log: CallLog)
    requires Sane(r) && Holds(r, k, c, self, IdOf(a), log) && c <= now < c + INTERVAL * 2 && now < WORD / 2
    requires i <= k < TOTAL_SHARDS && log.nonce >= nonce
    ensures Responded(r, now, self, i, nonce, a, w).1 != Some(false)
    decreases TOTAL_SHARDS - i
  {
    var (next, logs) := Fetched(r, now, i, self, IdOf(a));
    AccessKeepsRecord(r, Fetch(now, i, self, IdOf(a)), k, c, self, IdOf(a), log);
    assert AfterAccess(r, Fetch(now, i, self, IdOf(a))) == next;
    if i == k {
      ShownWithLaterNonce(logs, log, nonce, a, w);
    } else {
      LookingFindsRecord(next, now, self, i + 1, nonce, a, w, k, c, log);
    }
  }

  lemma StepKeepsRecord(s: State, c: Config, now: Word, call: Call, k: nat, created: Word, id: PisaId, log: CallLog)
    requires Sane(s.registry) && Holds(s.registry, k, created, c.self, id, log)
    requires created <= now < created + INTERVAL * 2 && now < WORD / 2
    ensures var t := After(s, c, now, call);
      Sane(t.registry) && Holds(t.registry, k, created, c.self, id, log)
  {
    hide Holds, Sane, Recorded, Responded, WindowFor;
    match call
    case Respond(sender, a, signer, canRespond, enoughGas) => {
      var access := Set(now, c.self, IdOf(a), CallLog(now, a.nonce, a));
      AccessKeepsRecord(s.registry, access, k, created, c.self, id, log);
    }
    case Recourse(value, a, preimage, tower, customer, failed, decoded) => {
      if a.mode in s.modes && WindowFor(s.modes[a.mode], a, decoded).Some? {
        var w := WindowFor(s.modes[a.mode], a, decoded).value;
        LookingKeepsRecord(s.registry, now, c.self, 0, a.nonce, a, w, k, created, id, log);
      }
    }
    case Elsewhere(access) => {
      if access.block == now {
        AccessKeepsRecord(s.registry, access, k, created, c.self, id, log);
      }
    }
    case _ =>
  }

  lemma {:induction false} RunKeepsResponse(s: State, c: Config, calls: seq<Timed>, k: nat, created: Word, id: PisaId,
                                            log: CallLog)
    requires Sane(s.registry) && Holds(s.registry, k, created, c.self, id, log)
    requires forall j :: 0 <= j < |calls| ==> created <= calls[j].block < created + INTERVAL * 2
    requires created < WORD / 4
    ensures Sane(Run(s, c, calls).registry) && Holds(Run(s, c, calls).registry, k, created, c.self, id, log)
    decreases |calls|
  {
    hide After, Holds, Sane;
    if calls != [] {
      StepKeepsRecord(s, c, calls[0].block, calls[0].call, k, created, id, log);
      RunKeepsResponse(After(s, c, calls[0].block, calls[0].call), c, calls[1..], k, created, id, log);
    }
  }

  lemma ResponseIsHeld(s: State, c: Config, b: Word, call: Call)
    requires Sane(s.registry) && b < WORD / 4 && call.Respond? && Step(s, c, b, call).Some?
    ensures var d := Step(s, c, b, call).value; var k := ShardIndex(b); var created := d.registry[k].creationBlock;
      && k in d.registry && created <= b < created + INTERVAL * 2 && Sane(d.registry)
      && Holds(d.registry, k, created, c.self, IdOf(call.appointment), CallLog(b, call.appointment.nonce, call.appointment))
  {
    RecordedIsHeld(s.registry, b, c.self, IdOf(call.appointment), CallLog(b, call.appointment.nonce, call.appointment));
  }

  lemma RecourseOnHeldRecord(s: State, c: Config, t: Word, call: Call, k: nat, created: Word, log: CallLog)
    requires Sane(s.registry) && call.Recourse?
    requires Holds(s.registry, k, created, c.self, IdOf(call.appointment), log) && log.nonce >= call.appointment.nonce
    requires k < TOTAL_SHARDS && created <= t < created + INTERVAL * 2 && t < WORD / 2
    ensures Step(s, c, t, call) == None
  {
    hide Holds, Sane, Responded;
    var a := call.appointment;
    if a.mode in s.modes && WindowFor(s.modes[a.mode], a, call.decoded).Some? {
      var w := WindowFor(s.modes[a.mode], a, call.decoded).value;
      LookingFindsRecord(s.registry, t, c.self, 0, a.nonce, a, w, k, created, log);
    }
  }

  lemma WithinTime(s: State, c: Config, t: Word, call: Call)
    requires call.Recourse? && Step(s, c, t, call).Some? && call.appointment.startTime < WORD / 2
    ensures call.appointment.finishTime < t < call.appointment.startTime + INTERVAL
  {
    hide Responded, WindowFor;
  }

  /**
   * An honest watcher is safe: once `respond` recorded a nonce in a shard that was created at most one interval before
   * the start of an appointment, every later recourse for that appointment with no higher nonce reverts, whatever was
   * called in between.
   */
  lemma {:induction false} HonestWatcherIsSafe(s: State, c: Config, b: Word, response: Call, calls: seq<Timed>, t: Word, recourse: Call)
    requires Sane(s.registry) && b < WORD / 4
    requires response.Respond? && Step(s, c, b, response).Some?
    requires recourse.Recourse? && IdOf(recourse.appointment) == IdOf(response.appointment)
    requires recourse.appointment.nonce <= response.appointment.nonce
    requires (forall j :: 0 <= j < |calls| ==> b <= calls[j].block <= t) && b <= t
    requires recourse.appointment.startTime <= Step(s, c, b, response).value.registry[ShardIndex(b)].creationBlock + INTERVAL
    ensures Step(Run(Step(s, c, b, response).value, c, calls), c, t, recourse) == None
  {
    hide Step, Sane, Holds;
    var a := recourse.appointment;
    var d := Step(s, c, b, response).value;
    var k := ShardIndex(b);
    ResponseIsHeld(s, c, b, response);
    var created := d.registry[k].creationBlock;
    if Step(Run(d, c, calls), c, t, recourse).Some? {
      WithinTime(Run(d, c, calls), c, t, recourse);
      var log := CallLog(b, response.appointment.nonce, response.appointment);
      RunKeepsResponse(d, c, calls, k, created, IdOf(a), log);
      RecourseOnHeldRecord(Run(d, c, calls), c, t, recourse, k, created, log);
    }
  }

  // ---- When the shard is too old -----------------------------------------------------------------------

  /** The list answers a recourse, or makes it revert: it shows a later nonce, this appointment in its window, or time 0. */
  ghost predicate Answers(logs: seq<CallLog>, a: Appointment, w: Window) {
    exists j :: 0 <= j < |logs| && AnswersAlone(logs[j], a, w)
  }

  ghost predicate AnswersAlone(log: CallLog, a: Appointment, w: Window) {
    log.nonce >= a.nonce || log.time == 0 || (w.start <= log.time <= w.end && log.appointment == a)
  }

  lemma {:induction false} ShownIffAnswers(logs: seq<CallLog>, a: Appointment, w: Window)
    ensures Shown(logs, a.nonce, a, w) == Some(false) <==> !Answers(logs, a, w)
  {
    if logs != [] {
      ShownIffAnswers(logs[1..], a, w);
      assert logs == [logs[0]] + logs[1..];
      if AnswersAlone(logs[0], a, w) {
        assert Answers(logs, a, w);
      } else if Answers(logs, a, w) {
        var j :| 0 <= j < |logs| && AnswersAlone(logs[j], a, w);
        assert AnswersAlone(logs[1..][j - 1], a, w);
      }
    }
  }

  ghost predicate ShardAnswers(r: Registry, self: Address, a: Appointment, w: Window, i: nat) {
    i in r && Answers(RecordsOf(r[i], self, PisaId(a.sc, a.cus, a.appointmentId)), a, w)
  }

  /** Looking through the shards finds nothing if and only if every shard that answers has expired. */
  lemma {:induction false} LookingFindsNothingIff(r: Registry, now: Word, self: Address, i: nat, a: Appointment, w: Window)
    requires Complete(r)
    ensures Responded(r, now, self, i, a.nonce, a, w).1 == Some(false)
      <==> forall j :: i <= j < TOTAL_SHARDS && ShardAnswers(r, self, a, w, j) ==> Expired(now, r[j].creationBlock)
    decreases TOTAL_SHARDS - i
  {
    if i < TOTAL_SHARDS {
      var (after, logs) := Fetched(r, now, i, self, IdOf(a));
      ShownIffAnswers(logs, a, w);
      assert !Answers([], a, w);
      hide Shown, Answers;
      LookingFindsNothingIff(after, now, self, i + 1, a, w);
      forall j | i + 1 <= j < TOTAL_SHARDS
        ensures ShardAnswers(after, self, a, w, j) == ShardAnswers(r, self, a, w, j) && after[j] == r[j] {}
    }
  }

  /** The window of a recourse, if its mode accepts what was decoded. */
  ghost function WindowOf(s: State, call: Call): Option<Window>
    requires call.Recourse?
  {
    var a := call.appointment;
    if a.mode in s.modes then WindowFor(s.modes[a.mode], a, call.decoded) else None
  }

  /** Everything about a recourse is in order, apart from its time and the watcher's response. */
  ghost predicate InOrderButForTime(s: State, c: Config, call: Call) {
    && call.Recourse? && !s.frozen && call.value == c.challengeBond && call.preimage
    && call.appointment.nonce > CheatedAt(s, IdOf(call.appointment)).nonce
    && call.towerSigner in s.watchers && call.customerSigner == call.appointment.cus
    && WindowOf(s, call).Some?
    && (s.modes[call.appointment.mode].postcondition ==> call.failed)
  }

  /** When a recourse in order succeeds: in its time, once every shard that answers it has expired. */
  lemma RecourseSucceedsIff(s: State, c: Config, t: Word, call: Call)
    requires Complete(s.registry) && InOrderButForTime(s, c, call)
    ensures var (a, w) := (call.appointment, WindowOf(s, call).value);
      Step(s, c, t, call).Some?
      <==> a.finishTime < t < Plus(a.startTime, INTERVAL)
           && forall i :: 0 <= i < TOTAL_SHARDS && ShardAnswers(s.registry, c.self, a, w, i) ==>
                Expired(t, s.registry[i].creationBlock)
  {
    hide Responded, WindowFor, ShardAnswers, Expired;
    LookingFindsNothingIff(s.registry, t, c.self, 0, call.appointment, WindowOf(s, call).value);
  }

  /** From the first block on at which every shard that answers has expired. */
  ghost predicate AllExpireBefore(r: Registry, self: Address, a: Appointment, w: Window, closes: int) {
    forall i :: 0 <= i < TOTAL_SHARDS && ShardAnswers(r, self, a, w, i) ==> r[i].creationBlock + INTERVAL * 2 < closes
  }

  /**
   * From block `b` on, a recourse in order can succeed at some block if and only if its time is not over before it
   * begins and every shard that answers it expires before its time is over.
   */
  lemma {:induction false} RecourseCanSucceedIff(s: State, c: Config, b: Word, call: Call)
    requires Sane(s.registry) && Dated(s.registry, b) && InOrderButForTime(s, c, call)
    ensures var (a, w) := (call.appointment, WindowOf(s, call).value);
      var closes := Plus(a.startTime, INTERVAL);
      (exists t: Word :: b <= t && Step(s, c, t, call).Some?)
      <==> a.finishTime + 1 < closes && b < closes && AllExpireBefore(s.registry, c.self, a, w, closes)
  {
    var (r, a, w) := (s.registry, call.appointment, WindowOf(s, call).value);
    var closes := Plus(a.startTime, INTERVAL);
    hide Step, InOrderButForTime, ShardAnswers, WindowOf, Expired;
    if a.finishTime + 1 < closes && b < closes && AllExpireBefore(r, c.self, a, w, closes) {
      var t: Word := closes - 1;
      forall i | 0 <= i < TOTAL_SHARDS && ShardAnswers(r, c.self, a, w, i) ensures Expired(t, r[i].creationBlock) {
        AnswersSinceCreation(r, c.self, a, w, i, b);
        ExpiredIfLater(t, r[i].creationBlock);
      }
      RecourseSucceedsIff(s, c, t, call);
    }
    if t: Word :| b <= t && Step(s, c, t, call).Some? {
      RecourseSucceedsIff(s, c, t, call);
      forall i | 0 <= i < TOTAL_SHARDS && ShardAnswers(r, c.self, a, w, i)
        ensures r[i].creationBlock + INTERVAL * 2 < closes
      {
        AnswersSinceCreation(r, c.self, a, w, i, b);
        ExpiredIfLater(t, r[i].creationBlock);
      }
    }
  }

  lemma AnswersSinceCreation(r: Registry, self: Address, a: Appointment, w: Window, i: nat, b: Word)
    requires Dated(r, b) && ShardAnswers(r, self, a, w, i)
    ensures i in r && r[i].creationBlock <= b
  {
  }

  lemma ExpiredIfLater(t: Word, created: Word)
    requires created <= t
    ensures Expired(t, created) <==> t >= created + INTERVAL * 2
  {
  }

  /**
   * So right after an honest response, a recourse for the same appointment id with no higher nonce, of any mode and in
   * order otherwise, can still succeed at some later block if and only if the shard of the response, and any other that
   * answers the recourse, expires before the time for recourse is over: without wrap-around, if it was created more than
   * one interval before the start of the appointment.
   */
  lemma {:induction false} HonestWatcherIsPunishedIff(s: State, c: Config, b: Word, response: Call, recourse: Call)
    requires Sane(s.registry) && Dated(s.registry, b) && b < WORD / 4
    requires response.Respond? && Step(s, c, b, response).Some?
    requires recourse.Recourse? && IdOf(recourse.appointment) == IdOf(response.appointment)
    requires recourse.appointment.nonce <= response.appointment.nonce
    requires InOrderButForTime(Step(s, c, b, response).value, c, recourse)
    ensures var (d, k) := (Step(s, c, b, response).value, ShardIndex(b));
      var (a, w) := (recourse.appointment, WindowOf(d, recourse).value);
      var closes := Plus(a.startTime, INTERVAL);
      && ShardAnswers(d.registry, c.self, a, w, k)
      && ((exists t: Word :: b <= t && Step(d, c, t, recourse).Some?)
          <==> a.finishTime + 1 < closes && d.registry[k].creationBlock + INTERVAL * 2 < closes
               && AllExpireBefore(d.registry, c.self, a, w, closes))
  {
    hide WindowOf;
    var (d, k) := (Step(s, c, b, response).value, ShardIndex(b));
    assert WindowOf(d, recourse).Some?;
    var (a, log) := (recourse.appointment, CallLog(b, response.appointment.nonce, response.appointment));
    ResponseIsHeld(s, c, b, response);
    AccessKeepsDated(s.registry, Set(b, c.self, IdOf(a), log), b);
    HeldAnswers(d.registry, c.self, a, WindowOf(d, recourse).value, k, log);
    hide Step, ShardAnswers, Dated, Sane, Holds, InOrderButForTime;
    RecourseCanSucceedIff(d, c, b, recourse);
  }

  lemma HeldAnswers(r: Registry, self: Address, a: Appointment, w: Window, k: nat, log: CallLog)
    requires k in r && log in RecordsOf(r[k], self, IdOf(a)) && log.nonce >= a.nonce
    ensures ShardAnswers(r, self, a, w, k)
  {
    var logs := RecordsOf(r[k], self, IdOf(a));
    var j :| 0 <= j < |logs| && logs[j] == log;
    assert AnswersAlone(logs[j], a, w);
  }

  // ---- Records are not older than their shard ----------------------------------------------------------

  lemma {:induction false} LookingKeepsDated(r: Registry, now: Word, self: Address, i: nat, nonce: Word, a: Appointment,
                                             w: Window, b: Word)
    requires Sane(r) && Dated(r, b) && b <= now < WORD / 2
    ensures var after := Responded(r, now, self, i, nonce, a, w).0; Sane(after) && Dated(after, now)
    decreases TOTAL_SHARDS - i
  {
    if i < TOTAL_SHARDS {
      AccessKeepsDated(r, Fetch(now, i, self, IdOf(a)), b);
      hide Sane, Dated;
      LookingKeepsDated(Fetched(r, now, i, self, IdOf(a)).0, now, self, i + 1, nonce, a, w, now);
    }
  }

  lemma StepKeepsDated(s: State, c: Config, now: Word, call: Call, b: Word)
    requires Sane(s.registry) && Dated(s.registry, b) && b <= now < WORD / 2
    ensures var t := After(s, c, now, call); Sane(t.registry) && Dated(t.registry, now)
  {
    hide Sane, Recorded, Responded, WindowFor;
    match call
    case Respond(sender, a, signer, canRespond, enoughGas) =>
      AccessKeepsDated(s.registry, Set(now, c.self, IdOf(a), CallLog(now, a.nonce, a)), b);
    case Recourse(value, a, preimage, tower, customer, failed, decoded) => {
      if a.mode in s.modes && WindowFor(s.modes[a.mode], a, decoded).Some? {
        LookingKeepsDated(s.registry, now, c.self, 0, a.nonce, a, WindowFor(s.modes[a.mode], a, decoded).value, b);
      }
    }
    case Elsewhere(access) => {
      if access.block == now {
        AccessKeepsDated(s.registry, access, b);
      }
    }
    case _ =>
  }

  /** In every run over a registry that was just deployed, records are not older than their shards. */
  lemma {:induction false} RunKeepsDated(s: State, c: Config, calls: seq<Timed>, b: Word)
    requires Sane(s.registry) && Dated(s.registry, b) && b < WORD / 2
    requires forall i, j :: 0 <= i < j < |calls| ==> calls[i].block <= calls[j].block
    requires forall j :: 0 <= j < |calls| ==> b <= calls[j].block < WORD / 2
    ensures var last := if calls == [] then b else calls[|calls| - 1].block;
      Sane(Run(s, c, calls).registry) && Dated(Run(s, c, calls).registry, last)
    decreases |calls|
  {
    hide After, Sane, Dated;
    if calls != [] {
      StepKeepsDated(s, c, calls[0].block, calls[0].call, b);
      RunKeepsDated(After(s, c, calls[0].block, calls[0].call), c, calls[1..], calls[0].block);
    }
  }

  /** For example: a registry deployed at block 300, and an appointment for blocks 1000 to 1250 answered at its start. */
  lemma PunishedThoughHonest(c: Config, watcher: Address, customer: Address)
    ensures var a := Appointment(1, customer, 1000, 1250, 0, 7, 1, "", 10, 0, 0, 0, "", "", "", "");
      && var s := Constructed(Deployed(300)).(watchers := {watcher}, modes := map[0 := Mode(false, false, false)]);
      && var response := Respond(watcher, a, customer, true, true);
      && Step(s, c, 1000, response).Some?
      && exists t: Word :: Step(Step(s, c, 1000, response).value, c, t,
           Recourse(c.challengeBond, a, true, watcher, customer, true, Window(0, 0, 0))).Some?
  {
    var a := Appointment(1, customer, 1000, 1250, 0, 7, 1, "", 10, 0, 0, 0, "", "", "", "");
    var s := Constructed(Deployed(300)).(watchers := {watcher}, modes := map[0 := Mode(false, false, false)]);
    var response := Respond(watcher, a, customer, true, true);
    var recourse := Recourse(c.challengeBond, a, true, watcher, customer, true, Window(0, 0, 0));
    DeployedIsDated<PisaId, CallLog>(300);
    assert ShardIndex(1000) == 0 && ShardIndex(300) == 0 && ShardIndex(800) == 1;
    ExpiresIff(1000, 300);
    hide Responded, WindowFor, SeekingRecourse;
    HonestWatcherIsPunishedIff(s, c, 1000, response, recourse);
  }
}
