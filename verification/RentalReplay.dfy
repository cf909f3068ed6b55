/**
 Idempotency keys, request by request. Once a keyed transaction is committed, its key stands
 for exactly what was asked: later, the same request changes nothing and any other request of
 the same table is refused, whatever happened in between.
 */
module RentalReplay {
  import opened Common
  import opened RentalModel
  import opened RentalMachine
  import RentalTheorems

  /** `again`, sent when the history has come to `later`, is answered as a repetition exactly when `same` holds. */
  predicate AnsweredAs(env: Catalogue, later: Tenant, again: Command, same: bool) {
    Apply(env, later, again) == if same then Ok(later) else Refused(IdempotencyKeyReused)
  }

  /** What a committed event, or preparation, leaves under its key. */
  lemma Remembered(env: Catalogue, s: Tenant, c: Command, between: seq<Command>)
    requires (c.Record? || c.Prepare? || c.Substitute? || c.Extend?) && Apply(env, s, c).Ok?
    ensures var keys := Run(env, Apply(env, s, c).value, between).keys;
            match c
            case Record(i, kind, quantity, ids, reason, key, _) =>
              (EventTable, key) in keys && keys[(EventTable, key)] == RecordRequest(i, kind, quantity, reason, ToSet(ids))
            case Prepare(i, ready, reason, key) =>
              (EventTable, key) in keys && keys[(EventTable, key)] == PrepareRequest(i, ready, reason)
            case Substitute(i, pool, _, impact, reason, key) =>
              (SubstitutionTable, key) in keys && keys[(SubstitutionTable, key)] == SubstituteRequest(i, pool.sku, impact, reason)
            case Extend(b, end, charge, evidence, reason, key) =>
              (ExtensionTable, key) in keys && keys[(ExtensionTable, key)] == ExtendRequest(b, end, charge, evidence, reason)
            case _ => true
  {
    RentalTheorems.RunContinues(env, Apply(env, s, c).value, between);
    hide Run, Attempt;
  }

  lemma SameMembers(a: seq<nat>, b: seq<nat>)
    ensures ToSet(a) == ToSet(b) <==> forall x :: x in a <==> x in b
  {
    if ToSet(a) == ToSet(b) {
      forall x: nat ensures x in a <==> x in b { assert x in ToSet(a) <==> x in ToSet(b); }
    }
  }

  /** A committed event: repeated exactly when row, kind, quantity, reason and named assignments are the same. */
  lemma RecordReplayIff(env: Catalogue, s: Tenant, c: Command, between: seq<Command>, again: Command)
    requires c.Record? && again.Record? && again.key == c.key && Apply(env, s, c).Ok?
    ensures AnsweredAs(env, Run(env, Apply(env, s, c).value, between), again,
                       && again.req == c.req && again.kind == c.kind && again.quantity == c.quantity && again.reason == c.reason
                       && forall x :: x in again.ids <==> x in c.ids)
  {
    Remembered(env, s, c, between);
    SameMembers(again.ids, c.ids);
    hide Run, Attempt;
  }

  /** A committed preparation: repeated exactly when row, target and reason are the same. */
  lemma PrepareReplayIff(env: Catalogue, s: Tenant, c: Command, between: seq<Command>, again: Command)
    requires c.Prepare? && again.Prepare? && again.key == c.key && Apply(env, s, c).Ok?
    ensures AnsweredAs(env, Run(env, Apply(env, s, c).value, between), again,
                       again.req == c.req && again.ready == c.ready && again.reason == c.reason)
  {
    Remembered(env, s, c, between);
    hide Run, Attempt;
  }

  /** A committed substitution: repeated exactly when row, SKU, price impact and reason are the same. */
  lemma SubstituteReplayIff(env: Catalogue, s: Tenant, c: Command, between: seq<Command>, again: Command)
    requires c.Substitute? && again.Substitute? && again.key == c.key && Apply(env, s, c).Ok?
    ensures AnsweredAs(env, Run(env, Apply(env, s, c).value, between), again,
                       again.req == c.req && again.pool.sku == c.pool.sku && again.impact == c.impact && again.reason == c.reason)
  {
    Remembered(env, s, c, between);
    hide Run, Attempt;
  }

  /** A committed extension: repeated exactly when booking, end, charge, evidence and reason are the same. */
  lemma ExtendReplayIff(env: Catalogue, s: Tenant, c: Command, between: seq<Command>, again: Command)
    requires c.Extend? && again.Extend? && again.key == c.key && Apply(env, s, c).Ok?
    ensures AnsweredAs(env, Run(env, Apply(env, s, c).value, between), again,
                       && again.booking == c.booking && again.end == c.end && again.charge == c.charge
                       && again.evidence == c.evidence && again.reason == c.reason)
  {
    Remembered(env, s, c, between);
    hide Run, Attempt;
  }

  /** Events and preparations share their keys: neither passes under the other's. */
  lemma EventKeysAreShared(env: Catalogue, s: Tenant, c: Command, between: seq<Command>, again: Command)
    requires (c.Record? && again.Prepare?) || (c.Prepare? && again.Record?)
    requires again.key == c.key && Apply(env, s, c).Ok?
    ensures AnsweredAs(env, Run(env, Apply(env, s, c).value, between), again, false)
  {
    Remembered(env, s, c, between);
    hide Run, Attempt;
  }

  /** The table whose keys a command uses. */
  function TableOf(c: Command): Option<KeyTable> {
    if c.Record? || c.Prepare? then Some(EventTable)
    else if c.Substitute? then Some(SubstitutionTable)
    else if c.Extend? then Some(ExtensionTable) else None
  }

  /** The stored keys of one table. */
  function KeysIn(s: Tenant, table: KeyTable): set<string> {
    set k | k in s.keys && k.0 == table :: k.1
  }

  /** A key is taken only by a transaction of its own table that is committed under it. */
  lemma KeysOfATable(env: Catalogue, s: Tenant, c: Command, table: KeyTable)
    ensures KeysIn(Next(env, s, c), table)
            == KeysIn(s, table) + if TableOf(c) == Some(table) && Apply(env, s, c).Ok? then {c.key} else {}
  {
    var t := Next(env, s, c);
    KeysWritten(env, s, c);
    hide Next, Apply;
    if TableOf(c) == Some(table) && c.key !in KeysIn(s, table) && t.keys.Keys == s.keys.Keys + {(table, c.key)} {
      assert (table, c.key) in t.keys;
    }
  }

  lemma KeysWritten(env: Catalogue, s: Tenant, c: Command)
    ensures Next(env, s, c).keys.Keys
            == s.keys.Keys + if TableOf(c).Some? && Apply(env, s, c).Ok? then {(TableOf(c).value, c.key)} else {}
  {
    if Attempt(env, s, c).Ok? { RentalTheorems.AttemptContinues(env, s, c); }
    hide Attempt;
  }

  /** With a key that its table does not have, or without one, a request is carried out. */
  lemma NewKeysAreCarriedOut(env: Catalogue, s: Tenant, c: Command)
    requires TableOf(c).Some? ==> c.key !in KeysIn(s, TableOf(c).value)
    ensures match Attempt(env, s, c)
            case Ok(t) => Apply(env, s, c).Ok? && Apply(env, s, c).value.(keys := t.keys) == t
            case Refused(why) => Apply(env, s, c) == Refused(why)
  {
    if TableOf(c).Some? { assert (TableOf(c).value, c.key) !in s.keys; }
    hide Attempt;
  }
}
