/** The accountability contract as an object over the registry, tied to the functions of `PisaHash`. */
module PisaHashContract {
  import opened Wrappers
  import opened DataRegistry
  import opened PisaHash

  class Pisa {
    const config: Config
    const registry: DataRegistry.Contract<PisaId, CallLog>
    var cheated: map<PisaId, Cheated>
    var pendingRefunds: Word
    var refunds: map<Address, Word>
    var flag: Flag
    var frozen: bool
    var watchers: set<Address>
    var modes: map<Word, Mode>

    function Contents(): State
      reads this, registry
    {
      State(registry.shards, cheated, pendingRefunds, refunds, flag, frozen, watchers, modes)
    }

    constructor (config: Config, registry: DataRegistry.Contract<PisaId, CallLog>)
      ensures this.config == config && this.registry == registry
      ensures Contents() == State(registry.shards, map[], 0, map[], OK, false, {}, map[])
    {
      this.config, this.registry := config, registry;
      cheated, pendingRefunds, refunds := map[], 0, map[];
      flag, frozen, watchers, modes := OK, false, {}, map[];
    }

    /** The nested loop over shards and their lists; `None` when a record without a time makes the call revert. */
    method DidPisaRespond(now: Word, nonce: Word, a: Appointment, w: Window) returns (answer: Option<bool>)
      modifies registry
      ensures (registry.shards, answer) == Responded(old(registry.shards), now, config.self, 0, nonce, a, w)
    {
      var i := 0;
      while i < TOTAL_SHARDS
        invariant 0 <= i <= TOTAL_SHARDS
        invariant Responded(registry.shards, now, config.self, i, nonce, a, w)
               == Responded(old(registry.shards), now, config.self, 0, nonce, a, w)
      {
        var response := registry.FetchRecords(now, i, config.self, IdOf(a));
        var j := 0;
        while j < |response|
          invariant 0 <= j <= |response|
          invariant Shown(response[j..], nonce, a, w) == Shown(response, nonce, a, w)
        {
          var log := response[j];
          assert response[j..][0] == log && response[j..][1..] == response[j + 1..];
          if log.nonce >= nonce { return Some(true); }
          if log.time == 0 { return None; }
          if w.start <= log.time && log.time <= w.end && log.appointment == a { return Some(true); }
          j := j + 1;
        }
        i := i + 1;
      }
      answer := Some(false);
    }

    method Respond(now: Word, sender: Address, a: Appointment, signer: Address, canRespond: bool, enoughGas: bool)
      returns (ok: bool)
      modifies registry
      ensures var t := Step(old(Contents()), config, now, Call.Respond(sender, a, signer, canRespond, enoughGas));
        ok == t.Some? && Contents() == (if ok then t.value else old(Contents()))
    {
      if sender !in watchers || a.cus != signer { return false; }
      if a.mode in modes && modes[a.mode].precondition && !canRespond { return false; }
      if ShardIndex(now) !in registry.shards || !enoughGas { return false; }
      var log := CallLog(now, a.nonce, a);
      var datashard, index := registry.SetRecord(now, config.self, IdOf(a), log);
      return true;
    }

    /** When the watcher did respond, the call reverts, and with it what looking for the response did to the registry. */
    method Recourse(now: Word, value: Word, a: Appointment, preimage: bool, tower: Address, customer: Address, failed: bool,
                    decoded: Window)
      returns (ok: bool)
      modifies this, registry
      ensures var t := Step(old(Contents()), config, now,
                            Call.Recourse(value, a, preimage, tower, customer, failed, decoded));
        ok == t.Some? && Contents() == (if ok then t.value else old(Contents()))
    {
      if frozen || value != config.challengeBond { return false; }
      if a.mode !in modes || !preimage { return false; }
      if Plus(a.startTime, INTERVAL) <= now || now <= a.finishTime { return false; }
      var id := IdOf(a);
      var record := CheatedAt(Contents(), id);
      if a.nonce <= record.nonce { return false; }
      if tower !in watchers || customer != a.cus { return false; }
      if modes[a.mode].postcondition && !failed { return false; }
      var window := WindowFor(modes[a.mode], a, decoded);
      if window.None? { return false; }
      var saved := registry.shards;
      var responded := DidPisaRespond(now, a.nonce, a, window.value);
      if responded != Some(false) {
        registry.shards := saved;
        return false;
      }
      if !record.triggered {
        pendingRefunds := Plus(pendingRefunds, 1);
      }
      cheated := cheated[id := Cheated(a.nonce, Plus(a.refund, config.challengeBond), Plus(now, config.cheatedTimer), true)];
      return true;
    }

    method CancelledAppointment(a: Appointment, signer: Address) returns (ok: bool)
      modifies this
      ensures forall now :: var t := Step(old(Contents()), config, now, Cancel(a, signer));
        ok == t.Some? && Contents() == (if ok then t.value else old(Contents()))
    {
      var id := IdOf(a);
      if a.cus != signer || a.nonce <= CheatedAt(Contents(), id).nonce { return false; }
      refunds := refunds[config.admin := Plus(RefundOf(Contents(), config.admin), config.challengeBond)];
      cheated := cheated[id := Cheated(a.nonce, 0, 0, false)];
      pendingRefunds := Minus(pendingRefunds, 1);
      return true;
    }

    method RefundCustomer(sc: Address, cus: Address, appointmentId: Word, value: Word) returns (ok: bool)
      modifies this
      ensures forall now :: var t := Step(old(Contents()), config, now, Refund(sc, cus, appointmentId, value));
        ok == t.Some? && Contents() == (if ok then t.value else old(Contents()))
    {
      if pendingRefunds == 0 { return false; }
      var id := PisaId(sc, cus, appointmentId);
      var record := CheatedAt(Contents(), id);
      if record.refund != value || !record.triggered { return false; }
      cheated := cheated[id := Cheated(record.nonce, 0, 0, false)];
      refunds := refunds[cus := Plus(RefundOf(Contents(), cus), value)];
      pendingRefunds := Minus(pendingRefunds, 1);
      return true;
    }

    /** Forfeiting leaves `pendingRefunds` as it is. */
    method Forfeit(now: Word, id: PisaId) returns (ok: bool)
      modifies this
      ensures var t := Step(old(Contents()), config, now, Call.Forfeit(id));
        ok == t.Some? && Contents() == (if ok then t.value else old(Contents()))
    {
      if frozen || pendingRefunds == 0 { return false; }
      var record := CheatedAt(Contents(), id);
      if !record.triggered || record.refund == 0 || record.refundBy == 0 || now <= record.refundBy { return false; }
      cheated := cheated[id := Cheated(record.nonce, 0, 0, false)];
      flag := CHEATED;
      return true;
    }
  }
}
