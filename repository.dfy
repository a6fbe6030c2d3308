/**
 * The patient store: a JPA repository keyed by UUID, with the two derived
 * existence queries the registry uses to keep emails unique.
 */
module Repository {

  /** Patient identifiers. Only equality and freshness of identifiers matter
      to the registry, so the 128-bit UUID is modelled as a natural number. */
  type Uuid = nat

  /** Calendar dates are opaque text as the request carries it; parsing
      them into a date is not modelled. */
  type Date = string

  /** One row of the patient table. */
  datatype Patient = Patient(
    id: Uuid,
    name: string,
    email: string,
    address: string,
    dateOfBirth: Date,
    registeredDate: Date)

  /** The table itself: each id maps to at most one row. */
  type Store = map<Uuid, Patient>

  /** Every row is stored under its own id. */
  ghost predicate WellKeyed(store: Store) {
    forall id :: id in store ==> store[id].id == id
  }

  /** No two stored patients share an email. */
  ghost predicate UniqueEmails(store: Store) {
    forall a, b :: a in store && b in store && a != b ==> store[a].email != store[b].email
  }

  /** The email column of the table. */
  function Emails(store: Store): set<string> {
    set id | id in store :: store[id].email
  }

  /** `existsByEmail`: true exactly when some stored patient has email `e`. */
  function ExistsByEmail(store: Store, e: string): (r: bool)
    ensures r <==> exists id :: id in store && store[id].email == e
  {
    e in Emails(store)
  }

  /** `existsByEmailAndIdNot`: true exactly when some stored patient other
      than `self` has email `e`. */
  function ExistsByEmailAndIdNot(store: Store, e: string, self: Uuid): (r: bool)
    ensures r <==> exists id :: id in store && id != self && store[id].email == e
  {
    var others := store - {self};
    assert forall id :: id in others <==> id in store && id != self;
    e in Emails(others)
  }

  /** A conflict with another patient is in particular a conflict with the table. */
  lemma ExistsByEmailAndIdNotImpliesExistsByEmail(store: Store, e: string, self: Uuid)
    ensures ExistsByEmailAndIdNot(store, e, self) ==> ExistsByEmail(store, e)
  {
  }

  /** When `self` is the only holder of `e`, there is no conflict for `self`. */
  lemma SoleHolderHasNoConflict(store: Store, e: string, self: Uuid)
    requires self in store && store[self].email == e
    requires forall id :: id in store && store[id].email == e ==> id == self
    ensures ExistsByEmail(store, e)
    ensures !ExistsByEmailAndIdNot(store, e, self)
  {
  }

  /** In a table with unique emails a patient never conflicts with its own
      current email. */
  lemma OwnEmailIsNoConflict(store: Store, self: Uuid)
    requires UniqueEmails(store) && self in store
    ensures !ExistsByEmailAndIdNot(store, store[self].email, self)
  {
  }

  /** `save` of a new row under an unused id, when no row has its email,
      keeps the table well keyed and its emails unique. */
  lemma InsertKeepsInvariant(store: Store, p: Patient)
    requires WellKeyed(store) && UniqueEmails(store)
    requires p.id !in store && !ExistsByEmail(store, p.email)
    ensures WellKeyed(store[p.id := p]) && UniqueEmails(store[p.id := p])
  {
  }

  /** `save` over an existing row, when no other row has its email, keeps
      the table well keyed and its emails unique. */
  lemma OverwriteKeepsInvariant(store: Store, p: Patient)
    requires WellKeyed(store) && UniqueEmails(store)
    requires p.id in store && !ExistsByEmailAndIdNot(store, p.email, p.id)
    ensures WellKeyed(store[p.id := p]) && UniqueEmails(store[p.id := p])
  {
  }

  /** `deleteById` keeps the table well keyed and its emails unique. */
  lemma DeleteKeepsInvariant(store: Store, id: Uuid)
    requires WellKeyed(store) && UniqueEmails(store)
    ensures WellKeyed(store - {id}) && UniqueEmails(store - {id})
  {
  }

  /** A number above every id in use, so that an unused id always exists
      for the generator to hand out. */
  ghost function IdBound(ids: set<Uuid>): (b: Uuid)
    ensures forall id :: id in ids ==> id < b
    decreases |ids|
  {
    if ids == {} then 0
    else
      var x :| x in ids;
      var rest := ids - {x};
      var b' := IdBound(rest);
      assert forall id :: id in ids ==> id == x || id in rest;
      if x < b' then b' else x + 1
  }

  /** `findAll`: every stored row, each exactly once, in no promised order. */
  method FindAll(store: Store) returns (rows: seq<Patient>)
    requires WellKeyed(store)
    ensures |rows| == |store|
    ensures forall i :: 0 <= i < |rows| ==> rows[i].id in store && store[rows[i].id] == rows[i]
    ensures forall id :: id in store ==> store[id] in rows
    ensures forall i, j :: 0 <= i < j < |rows| ==> rows[i].id != rows[j].id
  {
    rows := [];
    var remaining := store.Keys;
    while remaining != {}
      invariant remaining <= store.Keys
      invariant |rows| + |remaining| == |store|
      invariant forall i :: 0 <= i < |rows| ==> rows[i].id in store && store[rows[i].id] == rows[i]
      invariant forall i :: 0 <= i < |rows| ==> rows[i].id !in remaining
      invariant forall id :: id in store && id !in remaining ==> store[id] in rows
      invariant forall i, j :: 0 <= i < j < |rows| ==> rows[i].id != rows[j].id
      decreases |remaining|
    {
      var id :| id in remaining;
      rows := rows + [store[id]];
      remaining := remaining - {id};
    }
  }
}
