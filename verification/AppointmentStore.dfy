/**
 * The watcher's store of appointments: three indexes and a database that have to agree (src/watcher/store.ts).
 */
module AppointmentStore {
  import opened Wrappers
  import opened MapOfSets

  // ---- Appointments and their keys ---------------------------------------------------------------------

  datatype Appointment = Appointment(customerAddress: string, customerChosenId: string, nonce: nat,
                                     startBlock: nat, endBlock: nat, details: string)

  function Digit(d: nat): char
    requires d < 10
  {
    ('0' as int + d) as char
  }

  function Decimal(n: nat): (s: string)
    ensures s != []
  {
    if n < 10 then [Digit(n)] else Decimal(n / 10) + [Digit(n % 10)]
  }

  function Locator(a: Appointment): string {
    a.customerAddress + "|" + a.customerChosenId
  }

  function Id(a: Appointment): string {
    Locator(a) + "|" + Decimal(a.nonce)
  }

  /** Addresses are validated before they reach the store; in particular they do not contain the separator. */
  predicate GoodAddress(a: Appointment) {
    '|' !in a.customerAddress
  }

  /** The number that a decimal numeral stands for. */
  ghost function ValueOf(s: string): int {
    if s == "" then 0 else 10 * ValueOf(s[..|s| - 1]) + (s[|s| - 1] as int - '0' as int)
  }

  lemma {:induction false} DecimalReads(n: nat)
    ensures ValueOf(Decimal(n)) == n && forall i :: 0 <= i < |Decimal(n)| ==> '0' <= Decimal(n)[i] <= '9'
    ensures n > 0 ==> Decimal(n)[0] != '0'
    decreases n
  {
    var s := Decimal(n);
    if n >= 10 {
      DecimalReads(n / 10);
      assert s[..|s| - 1] == Decimal(n / 10);
    } else {
      assert s[..|s| - 1] == "";
    }
  }

  lemma {:induction false} DecimalDetermines(m: nat, n: nat)
    requires Decimal(m) == Decimal(n)
    ensures m == n
    decreases m
  {
    var s, t := Decimal(m), Decimal(n);
    assert s[|s| - 1] == Digit(m % 10) && t[|t| - 1] == Digit(n % 10);
    if m >= 10 && n >= 10 {
      assert s[..|s| - 1] == Decimal(m / 10) && t[..|t| - 1] == Decimal(n / 10);
      DecimalDetermines(m / 10, n / 10);
    }
  }

  lemma {:induction false} DecimalHasNoSeparator(n: nat)
    ensures '|' !in Decimal(n)
  {
    if n >= 10 {
      DecimalHasNoSeparator(n / 10);
    }
  }

  /** Cutting at the first separator recovers both parts. */
  lemma FirstSeparator(a: string, b: string, c: string, d: string)
    requires '|' !in a && '|' !in c
    requires a + "|" + b == c + "|" + d
    ensures a == c && b == d
  {
    var s := a + "|" + b;
    assert s[|a|] == '|' && s[|c|] == '|';
    assert forall i :: 0 <= i < |a| ==> s[i] == a[i];
    assert forall i :: 0 <= i < |c| ==> s[i] == c[i];
    assert |a| == |c|;
    assert a == s[..|a|] && c == s[..|c|];
    assert b == s[|a| + 1..] && d == s[|c| + 1..];
  }

  /** Cutting at the last separator recovers both parts. */
  lemma LastSeparator(a: string, b: string, c: string, d: string)
    requires '|' !in b && '|' !in d
    requires a + "|" + b == c + "|" + d
    ensures a == c && b == d
  {
    var s := a + "|" + b;
    assert s[|a|] == '|' && s[|c|] == '|';
    assert forall i :: 0 <= i < |b| ==> s[|a| + 1 + i] == b[i];
    assert forall i :: 0 <= i < |d| ==> s[|c| + 1 + i] == d[i];
    assert |a| == |c|;
    assert a == s[..|a|] && c == s[..|c|];
    assert b == s[|a| + 1..] && d == s[|c| + 1..];
  }

  /** An id determines locator and nonce, a locator determines the customer. */
  lemma KeysDetermine(a: Appointment, b: Appointment)
    ensures Id(a) == Id(b) ==> Locator(a) == Locator(b) && a.nonce == b.nonce
    ensures GoodAddress(a) && GoodAddress(b) && Locator(a) == Locator(b) ==>
      a.customerAddress == b.customerAddress && a.customerChosenId == b.customerChosenId
  {
    if Id(a) == Id(b) {
      DecimalHasNoSeparator(a.nonce);
      DecimalHasNoSeparator(b.nonce);
      LastSeparator(Locator(a), Decimal(a.nonce), Locator(b), Decimal(b.nonce));
      DecimalDetermines(a.nonce, b.nonce);
    }
    if GoodAddress(a) && GoodAddress(b) && Locator(a) == Locator(b) {
      FirstSeparator(a.customerAddress, a.customerChosenId, b.customerAddress, b.customerChosenId);
    }
  }

  // ---- The store as a value ----------------------------------------------------------------------------

  datatype Store = Store(byId: map<string, Appointment>, byLocator: map<string, Appointment>,
                         byCustomer: map<string, set<Appointment>>, db: map<string, Appointment>)

  const EMPTY := Store(map[], map[], map[], map[])

  ghost predicate Has(s: Store, a: Appointment) {
    Id(a) in s.byId && s.byId[Id(a)] == a
  }

  /** All indexes and the database describe the same appointments, at most one for each locator. */
  ghost predicate Consistent(s: Store) {
    && s.db == s.byId
    && (forall id :: id in s.byId ==> Id(s.byId[id]) == id && GoodAddress(s.byId[id]))
    && (forall l :: l in s.byLocator ==> Locator(s.byLocator[l]) == l && Has(s, s.byLocator[l]))
    && (forall a :: Has(s, a) ==> Locator(a) in s.byLocator && s.byLocator[Locator(a)] == a)
    && NoEmptySets(s.byCustomer)
    && (forall c, a :: Holds(s.byCustomer, c, a) <==> c == a.customerAddress && Has(s, a))
  }

  datatype Fault = NonceNotLarger | MissingLocator | MissingCustomer

  function Current(s: Store, a: Appointment): Option<Appointment> {
    if Locator(a) in s.byLocator then Some(s.byLocator[Locator(a)]) else None
  }

  /** The store once `a` has taken its place, if the customer index lets the current appointment go. */
  function Put(s: Store, a: Appointment): Option<Store> {
    match Current(s, a)
    case None =>
      Some(Store(s.byId[Id(a) := a], s.byLocator[Locator(a) := a],
                 Added(s.byCustomer, a.customerAddress, a), s.db[Id(a) := a]))
    case Some(current) =>
      match Deleted(s.byCustomer, a.customerAddress, current)
      case None => None
      case Some(customers) =>
        Some(Store((s.byId - {Id(current)})[Id(a) := a], s.byLocator[Locator(a) := a],
                   Added(customers, a.customerAddress, a), (s.db - {Id(current)})[Id(a) := a]))
  }

  /** An appointment replaces the current one for its locator only with a larger nonce. */
  function AddOrUpdate(s: Store, a: Appointment): Result<Store, Fault> {
    if Current(s, a).Some? && a.nonce <= Current(s, a).value.nonce then Failure(NonceNotLarger)
    else
      match Put(s, a)
      case None => Failure(MissingCustomer)
      case Some(t) => Success(t)
  }

  function Without(s: Store, id: string): Result<Store, Fault>
    requires id in s.byId
  {
    var a := s.byId[id];
    if Locator(a) !in s.byLocator then Failure(MissingLocator)
    else
      match Deleted(s.byCustomer, a.customerAddress, a)
      case None => Failure(MissingCustomer)
      case Some(customers) =>
        Success(Store(s.byId - {id},
                      if Id(s.byLocator[Locator(a)]) == id then s.byLocator - {Locator(a)} else s.byLocator,
                      customers, s.db - {id}))
  }

  // ---- What the operations keep ------------------------------------------------------------------------

  /** When `Put` has a current appointment to displace, the customer index knows it under the same customer. */
  lemma CurrentIsIndexed(s: Store, a: Appointment)
    requires Consistent(s) && GoodAddress(a)
    ensures Put(s, a).Some?
    ensures Current(s, a).Some? ==> var current := Current(s, a).value;
      && Has(s, current) && current.customerAddress == a.customerAddress
      && Holds(s.byCustomer, a.customerAddress, current)
  {
    if Current(s, a).Some? {
      var current := Current(s, a).value;
      KeysDetermine(a, current);
      assert Holds(s.byCustomer, a.customerAddress, current);
    }
  }

  lemma PutHas(s: Store, a: Appointment)
    requires Consistent(s) && GoodAddress(a) && Put(s, a).Some?
    requires Current(s, a).Some? ==> a.nonce > Current(s, a).value.nonce
    ensures forall b :: Has(Put(s, a).value, b) <==> b == a || (Has(s, b) && Locator(b) != Locator(a))
  {
    var t := Put(s, a).value;
    forall b ensures Has(t, b) <==> b == a || (Has(s, b) && Locator(b) != Locator(a)) {
      KeysDetermine(a, b);
      if Current(s, a).Some? { KeysDetermine(Current(s, a).value, b); }
    }
  }

  lemma PutCustomers(s: Store, a: Appointment)
    requires Consistent(s) && GoodAddress(a) && Put(s, a).Some?
    ensures NoEmptySets(Put(s, a).value.byCustomer)
    ensures forall c, b :: Holds(Put(s, a).value.byCustomer, c, b) <==>
      (c == a.customerAddress && b == a) || (c == b.customerAddress && Has(s, b) && Locator(b) != Locator(a))
  {
    CurrentIsIndexed(s, a);
    MembershipAfter(s.byCustomer, a.customerAddress, a);
    if Current(s, a).Some? {
      var current := Current(s, a).value;
      MembershipAfter(s.byCustomer, a.customerAddress, current);
      MembershipAfter(Deleted(s.byCustomer, a.customerAddress, current).value, a.customerAddress, a);
    }
  }

  lemma PutIdsAndLocators(s: Store, a: Appointment)
    requires Consistent(s) && GoodAddress(a) && Put(s, a).Some?
    requires Current(s, a).Some? ==> a.nonce > Current(s, a).value.nonce
    ensures var t := Put(s, a).value;
      && t.db == t.byId
      && (forall id :: id in t.byId ==> Id(t.byId[id]) == id && GoodAddress(t.byId[id]))
      && (forall l :: l in t.byLocator ==> Locator(t.byLocator[l]) == l && Has(t, t.byLocator[l]))
      && (forall b :: Has(t, b) ==> Locator(b) in t.byLocator && t.byLocator[Locator(b)] == b)
  {
    PutHas(s, a);
  }

  /** An update fails only for a nonce that is not larger; otherwise it swaps the locator's appointment for `a`. */
  lemma UpdateKeepsConsistent(s: Store, a: Appointment)
    requires Consistent(s) && GoodAddress(a)
    ensures AddOrUpdate(s, a).Success? <==> Current(s, a).None? || a.nonce > Current(s, a).value.nonce
    ensures AddOrUpdate(s, a).Success? ==>
      var t := AddOrUpdate(s, a).value;
      && Consistent(t)
      && forall b :: Has(t, b) <==> b == a || (Has(s, b) && Locator(b) != Locator(a))
  {
    CurrentIsIndexed(s, a);
    if AddOrUpdate(s, a).Success? {
      PutHas(s, a);
      PutCustomers(s, a);
      PutIdsAndLocators(s, a);
    }
  }

  /** Removing an appointment that is in the store never fails and removes nothing else. */
  lemma RemoveKeepsConsistent(s: Store, id: string)
    requires Consistent(s) && id in s.byId
    ensures Without(s, id).Success?
    ensures Consistent(Without(s, id).value)
    ensures forall b :: Has(Without(s, id).value, b) <==> Has(s, b) && Id(b) != id
  {
    var a := s.byId[id];
    assert Has(s, a);
    assert Holds(s.byCustomer, a.customerAddress, a);
    MembershipAfter(s.byCustomer, a.customerAddress, a);
    assert s.byLocator[Locator(a)] == a;
    var t := Without(s, id).value;
    assert forall b :: Has(t, b) <==> Has(s, b) && Id(b) != id;
    RemovedCustomers(s, id, t);
  }

  lemma RemovedCustomers(s: Store, id: string, t: Store)
    requires Consistent(s) && id in s.byId && Deleted(s.byCustomer, s.byId[id].customerAddress, s.byId[id]) == Some(t.byCustomer)
    requires forall b :: Has(t, b) <==> Has(s, b) && Id(b) != id
    ensures NoEmptySets(t.byCustomer)
    ensures forall c, b :: Holds(t.byCustomer, c, b) <==> c == b.customerAddress && Has(t, b)
  {
    MembershipAfter(s.byCustomer, s.byId[id].customerAddress, s.byId[id]);
  }

  /** The database determines all three indexes. */
  lemma DatabaseDetermines(s: Store, t: Store)
    requires Consistent(s) && Consistent(t) && s.db == t.db
    ensures s == t
  {
    forall l ensures l in s.byLocator <==> l in t.byLocator
      ensures l in s.byLocator && l in t.byLocator ==> s.byLocator[l] == t.byLocator[l]
    {
      if l in s.byLocator { assert Has(t, s.byLocator[l]); }
      if l in t.byLocator { assert Has(s, t.byLocator[l]); }
    }
    assert s.byLocator == t.byLocator;
    forall c ensures c in s.byCustomer <==> c in t.byCustomer
      ensures c in s.byCustomer && c in t.byCustomer ==> s.byCustomer[c] == t.byCustomer[c]
    {
      SameCustomers(s, t, c);
      SameCustomers(t, s, c);
    }
    assert s.byCustomer == t.byCustomer;
  }

  lemma SameCustomers(s: Store, t: Store, c: string)
    requires Consistent(s) && Consistent(t) && s.byId == t.byId
    ensures c in s.byCustomer ==> c in t.byCustomer && s.byCustomer[c] <= t.byCustomer[c]
  {
    if c in s.byCustomer {
      forall a | a in s.byCustomer[c] ensures Holds(t.byCustomer, c, a) {
        assert Holds(s.byCustomer, c, a);
        assert Has(t, a);
      }
      var a :| a in s.byCustomer[c];
      assert Holds(t.byCustomer, c, a);
    }
  }

  // ---- Runs --------------------------------------------------------------------------------------------

  datatype Operation = Submit(appointment: Appointment) | Remove(id: string)

  function After(s: Store, op: Operation): Store {
    match op
    case Submit(a) => (match AddOrUpdate(s, a) case Success(t) => t case Failure(_) => s)
    case Remove(id) => if id in s.byId then (match Without(s, id) case Success(t) => t case Failure(_) => s) else s
  }

  function Run(s: Store, ops: seq<Operation>): Store
    decreases |ops|
  {
    if ops == [] then s else Run(After(s, ops[0]), ops[1..])
  }

  ghost predicate GoodOperation(op: Operation) {
    op.Submit? ==> GoodAddress(op.appointment)
  }

  lemma StepKeepsConsistent(s: Store, op: Operation)
    requires Consistent(s) && GoodOperation(op)
    ensures Consistent(After(s, op))
  {
    match op
    case Submit(a) => UpdateKeepsConsistent(s, a);
    case Remove(id) => if id in s.byId { RemoveKeepsConsistent(s, id); }
  }

  lemma {:induction false} RunKeepsConsistent(s: Store, ops: seq<Operation>)
    requires Consistent(s) && forall i :: 0 <= i < |ops| ==> GoodOperation(ops[i])
    ensures Consistent(Run(s, ops))
    decreases |ops|
  {
    if ops != [] {
      StepKeepsConsistent(s, ops[0]);
      RunKeepsConsistent(After(s, ops[0]), ops[1..]);
    }
  }

  ghost predicate StaysPresent(s: Store, ops: seq<Operation>, locator: string)
    decreases |ops|
  {
    locator in s.byLocator && (ops != [] ==> StaysPresent(After(s, ops[0]), ops[1..], locator))
  }

  /** While a locator stays present, its appointment changes only to one with a larger nonce. */
  lemma {:induction false} NoncesIncrease(s: Store, ops: seq<Operation>, locator: string)
    requires Consistent(s) && (forall i :: 0 <= i < |ops| ==> GoodOperation(ops[i]))
    requires StaysPresent(s, ops, locator)
    ensures locator in Run(s, ops).byLocator
    ensures Run(s, ops).byLocator[locator] == s.byLocator[locator]
         || Run(s, ops).byLocator[locator].nonce > s.byLocator[locator].nonce
    decreases |ops|
  {
    if ops != [] {
      var t := After(s, ops[0]);
      StepKeepsConsistent(s, ops[0]);
      match ops[0] {
        case Submit(a) => UpdateKeepsConsistent(s, a);
        case Remove(id) => if id in s.byId { RemoveKeepsConsistent(s, id); }
      }
      NoncesIncrease(t, ops[1..], locator);
    }
  }
}
