/**
 * The database as mutable state: one field per table. Views change these fields in
 * place; `State` is their value as a `Models.Tables`, which the specifications use.
 */
module Store {
  import opened Models

  class Database {
    var issuers: map<string, Issuer>
    var concepts: map<int, Concept>
    var nextPk: nat
    var events: map<EventKey, Event>
    var ratings: map<EventKey, Rating>
    var details: map<DetailKey, real>

    function State(): Tables
      reads this
    {
      Tables(issuers, concepts, nextPk, events, ratings, details)
    }

    ghost predicate Valid()
      reads this
    {
      Models.Valid(State())
    }

    constructor ()
      ensures State() == Models.Empty && Valid()
    {
      issuers, concepts, nextPk := map[], map[], 1;
      events, ratings, details := map[], map[], map[];
    }

    /** Puts back a saved state: the rollback of a failed `transaction.atomic` block. */
    method Restore(t: Tables)
      modifies this
      ensures State() == t
    {
      issuers, concepts, nextPk := t.issuers, t.concepts, t.nextPk;
      events, ratings, details := t.events, t.ratings, t.details;
    }
  }
}
