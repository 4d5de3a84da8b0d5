/**
 * Uploading the same sheet a second time. After a successful upload every issuer, event
 * and concept its rows name exists, so each `get_or_create` of the second run finds its
 * row, and each `update_or_create` writes the value it wrote the first time. The details
 * and ratings that end up different on the way are the ones a later row rewrites, as it
 * did the first time. So the second upload leaves the tables as the first one left them
 * and counts no new event.
 */
module UploadRerun {
  import opened Common
  import opened Models
  import opened Upload
  import opened UploadProperties

  // ----- What a successful first run never takes away -----

  /** `b` has every issuer, event, concept, rating and detail key of `a`, and its ratings keep their totals. */
  predicate Grows(a: Tables, b: Tables) {
    && a.issuers.Keys <= b.issuers.Keys
    && a.events.Keys <= b.events.Keys
    && a.concepts.Keys <= b.concepts.Keys
    && a.details.Keys <= b.details.Keys
    && (forall x :: x in a.ratings ==> x in b.ratings && b.ratings[x].montoTotalDistribuido == a.ratings[x].montoTotalDistribuido)
  }

  lemma {:induction false} StoreFactorsGrows(t: Tables, headers: seq<string>, row: Row, rowNumber: nat, k: EventKey, j: nat)
    requires j <= |headers|
    requires StoreFactors(t, headers, row, rowNumber, k, j).Ok?
    ensures var r := StoreFactors(t, headers, row, rowNumber, k, j).value;
      Grows(t, r) && r.ratings == t.ratings
    decreases |headers| - j
  {
    if j < |headers| {
      var h := headers[j];
      var n := FactorNumber(h);
      var c := CellAt(row, h);
      if n.None? || IsBlankCell(c) {
        assert StoreFactors(t, headers, row, rowNumber, k, j) == StoreFactors(t, headers, row, rowNumber, k, j + 1);
        StoreFactorsGrows(t, headers, row, rowNumber, k, j + 1);
      } else {
        var t1 := EnsureConcept(t, n.value);
        var t2 := t1.(details := t1.details[DetailKey(k, n.value) := DecimalValue(c).value]);
        assert StoreFactors(t, headers, row, rowNumber, k, j) == StoreFactors(t2, headers, row, rowNumber, k, j + 1);
        StoreFactorsGrows(t2, headers, row, rowNumber, k, j + 1);
      }
    }
  }

  lemma IngestRowGrows(t: Tables, headers: seq<string>, row: Row, index: nat, actor: nat)
    requires IngestRow(t, headers, row, index, actor).Ok?
    ensures Grows(t, IngestRow(t, headers, row, index, actor).value.0)
  {
    var nem, k, m, t3 := FirstRunRow(t, headers, row, index, actor);
    StoreFactorsGrows(t3, headers, row, index + 2, k, 0);
  }

  lemma {:induction false} IngestFromGrows(t: Tables, sheet: Sheet, i: nat, created: nat, actor: nat)
    requires i <= |sheet.rows|
    requires IngestFrom(t, sheet, i, created, actor).Ok?
    ensures Grows(t, IngestFrom(t, sheet, i, created, actor).value.0)
    decreases |sheet.rows| - i
  {
    if i < |sheet.rows| {
      IngestRowGrows(t, sheet.headers, sheet.rows[i], i, actor);
      var (t1, c) := IngestRow(t, sheet.headers, sheet.rows[i], i, actor).value;
      IngestFromGrows(t1, sheet, i + 1, if c then created + 1 else created, actor);
    }
  }

  // ----- The second run against the first -----

  /**
   * The state `s` of the second run before some row, against the state `u` of the first
   * run before the same row and the first run's final state `t`: `s` has the final
   * issuers, events, concepts and keys, and each of its ratings and details holds either
   * its final value or the one the first run had at that point.
   */
  ghost predicate Between(s: Tables, u: Tables, t: Tables) {
    && s.issuers == t.issuers && s.events == t.events && s.concepts == t.concepts && s.nextPk == t.nextPk
    && s.ratings.Keys == t.ratings.Keys && s.details.Keys == t.details.Keys
    && (forall x :: x in s.ratings ==> s.ratings[x] == t.ratings[x] || (x in u.ratings && s.ratings[x] == u.ratings[x]))
    && (forall d :: d in s.details ==> s.details[d] == t.details[d] || (d in u.details && s.details[d] == u.details[d]))
  }

  /**
   * `a2` is the factor loop's result on `a` and `b2` its result on `b`: the loop changed
   * only details of `a`, kept its keys, and each detail of `a2` is either the one of `b2`
   * or one that neither run wrote.
   */
  ghost predicate AgainRel(a: Tables, b: Tables, a2: Tables, b2: Tables) {
    && a2 == a.(details := a2.details)
    && a2.details.Keys == a.details.Keys
    && forall d :: d in a2.details ==>
         (d in b2.details && a2.details[d] == b2.details[d]) ||
         (a2.details[d] == a.details[d] && (d in b.details ==> d in b2.details && b2.details[d] == b.details[d]))
  }

  /**
   * The factor loop on a state `a` that already has every concept and detail key the loop
   * leaves in `b` creates nothing on `a` and ends in `AgainRel`.
   */
  lemma {:induction false} StoreFactorsAgain(a: Tables, b: Tables, headers: seq<string>, row: Row, rowNumber: nat,
                                             k: EventKey, j: nat)
    requires j <= |headers|
    requires StoreFactors(b, headers, row, rowNumber, k, j).Ok?
    requires StoreFactors(b, headers, row, rowNumber, k, j).value.concepts.Keys <= a.concepts.Keys
    requires StoreFactors(b, headers, row, rowNumber, k, j).value.details.Keys <= a.details.Keys
    ensures StoreFactors(a, headers, row, rowNumber, k, j).Ok?
    ensures AgainRel(a, b, StoreFactors(a, headers, row, rowNumber, k, j).value, StoreFactors(b, headers, row, rowNumber, k, j).value)
    decreases |headers| - j, 1
  {
    if j < |headers| {
      var h := headers[j];
      if FactorNumber(h).None? || IsBlankCell(CellAt(row, h)) {
        assert StoreFactors(a, headers, row, rowNumber, k, j) == StoreFactors(a, headers, row, rowNumber, k, j + 1);
        assert StoreFactors(b, headers, row, rowNumber, k, j) == StoreFactors(b, headers, row, rowNumber, k, j + 1);
        StoreFactorsAgain(a, b, headers, row, rowNumber, k, j + 1);
      } else {
        StoreFactorsAgainWrite(a, b, headers, row, rowNumber, k, j);
      }
    }
  }

  /** The case of `StoreFactorsAgain` where header `j` writes a detail: both runs write the same value. */
  lemma {:induction false} StoreFactorsAgainWrite(a: Tables, b: Tables, headers: seq<string>, row: Row, rowNumber: nat,
                                                  k: EventKey, j: nat)
    requires j < |headers|
    requires FactorNumber(headers[j]).Some? && !IsBlankCell(CellAt(row, headers[j]))
    requires StoreFactors(b, headers, row, rowNumber, k, j).Ok?
    requires StoreFactors(b, headers, row, rowNumber, k, j).value.concepts.Keys <= a.concepts.Keys
    requires StoreFactors(b, headers, row, rowNumber, k, j).value.details.Keys <= a.details.Keys
    ensures StoreFactors(a, headers, row, rowNumber, k, j).Ok?
    ensures AgainRel(a, b, StoreFactors(a, headers, row, rowNumber, k, j).value, StoreFactors(b, headers, row, rowNumber, k, j).value)
    decreases |headers| - j, 0
  {
    var h := headers[j];
    var n := FactorNumber(h).value;
    var c := CellAt(row, h);
    assert DecimalValue(c).Some?;
    var v := DecimalValue(c).value;
    var dk := DetailKey(k, n);
    var b1 := EnsureConcept(b, n);
    var b2 := b1.(details := b1.details[dk := v]);
    assert StoreFactors(b, headers, row, rowNumber, k, j) == StoreFactors(b2, headers, row, rowNumber, k, j + 1);
    var bF := StoreFactors(b2, headers, row, rowNumber, k, j + 1).value;
    StoreFactorsGrows(b2, headers, row, rowNumber, k, j + 1);
    assert n in a.concepts && dk in a.details;
    var a1 := a.(details := a.details[dk := v]);
    assert StoreFactors(a, headers, row, rowNumber, k, j) == StoreFactors(a1, headers, row, rowNumber, k, j + 1);
    StoreFactorsAgain(a1, b2, headers, row, rowNumber, k, j + 1);
    WriteAgain(a, b, a1, b2, StoreFactors(a1, headers, row, rowNumber, k, j + 1).value, bF, dk, v);
  }

  /** Writing the same value `v` at `dk` on both sides, before the rest of the loop, keeps `AgainRel`. */
  lemma WriteAgain(a: Tables, b: Tables, a1: Tables, b1: Tables, a2: Tables, b2: Tables, dk: DetailKey, v: real)
    requires a1 == a.(details := a.details[dk := v]) && dk in a.details
    requires b1.details == b.details[dk := v]
    requires AgainRel(a1, b1, a2, b2)
    ensures AgainRel(a, b, a2, b2)
  {
  }

  /**
   * The first run's row, step by step: its cells give the issuer `nem`, the key `k` and the
   * amount `m`, and `u3` is the state after the rating's upsert, before the factor loop.
   */
  lemma FirstRunRow(u: Tables, headers: seq<string>, row: Row, index: nat, actor: nat)
    returns (nem: string, k: EventKey, m: real, u3: Tables)
    requires IngestRow(u, headers, row, index, actor).Ok?
    ensures CreditSum(headers, row) <= CreditTolerance
    ensures CharValue(CellAt(row, "Instrumento")) == Some(nem) && RowKey(row, nem, index + 2) == Ok(k)
    ensures RowAmount(headers, row) == Some(m)
    ensures nem in u3.issuers && k in u3.events && k in u3.ratings
    ensures u3.details == u.details && Grows(u, u3)
    ensures forall x :: x != k ==> (x in u3.ratings <==> x in u.ratings)
    ensures forall x :: x != k && x in u.ratings ==> u3.ratings[x] == u.ratings[x]
    ensures u3.ratings[k] == Rating(if k in u.ratings then u.ratings[k].montoTotalDistribuido else 0.0, m, Borrador, Some(actor))
    ensures StoreFactors(u3, headers, row, index + 2, k, 0).Ok?
    ensures IngestRow(u, headers, row, index, actor).value.0 == StoreFactors(u3, headers, row, index + 2, k, 0).value
  {
    var u2;
    nem, k, u2 := FirstRunIssuerAndEvent(u, headers, row, index, actor);
    m := RowAmount(headers, row).value;
    u3 := UpsertRating(u2, k, m, actor);
  }

  /** The issuer and event steps of the first run's row: the state `u2` before the rating's upsert. */
  lemma FirstRunIssuerAndEvent(u: Tables, headers: seq<string>, row: Row, index: nat, actor: nat)
    returns (nem: string, k: EventKey, u2: Tables)
    requires IngestRow(u, headers, row, index, actor).Ok?
    ensures CreditSum(headers, row) <= CreditTolerance && RowAmount(headers, row).Some?
    ensures CharValue(CellAt(row, "Instrumento")) == Some(nem) && RowKey(row, nem, index + 2) == Ok(k)
    ensures nem in u2.issuers && k in u2.events && u2.ratings == u.ratings && u2.details == u.details && Grows(u, u2)
    ensures var u3 := UpsertRating(u2, k, RowAmount(headers, row).value, actor);
      && StoreFactors(u3, headers, row, index + 2, k, 0).Ok?
      && IngestRow(u, headers, row, index, actor).value.0 == StoreFactors(u3, headers, row, index + 2, k, 0).value
  {
    IngestRowSteps(u, headers, row, index, actor);
    ResolveIssuerFrame(u, headers, row, index);
    var (u1, nem') := ResolveIssuer(u, headers, row, index).value;
    nem := nem';
    k := RowKey(row, nem, index + 2).value;
    var (u2', created) := ResolveEvent(u1, headers, row, index + 2, k, actor).value;
    u2 := u2';
  }

  /** One row of the second run keeps `Between` and creates no event. */
  lemma IngestRowAgain(s: Tables, u: Tables, t: Tables, headers: seq<string>, row: Row, index: nat, actor: nat)
    requires IngestRow(u, headers, row, index, actor).Ok?
    requires Grows(IngestRow(u, headers, row, index, actor).value.0, t)
    requires Between(s, u, t)
    ensures IngestRow(s, headers, row, index, actor).Ok?
    ensures !IngestRow(s, headers, row, index, actor).value.1
    ensures Between(IngestRow(s, headers, row, index, actor).value.0, IngestRow(u, headers, row, index, actor).value.0, t)
  {
    var nem, k, m, u3 := FirstRunRow(u, headers, row, index, actor);
    var u4 := StoreFactors(u3, headers, row, index + 2, k, 0).value;
    StoreFactorsGrows(u3, headers, row, index + 2, k, 0);
    var s3 := UpsertRating(s, k, m, actor);
    assert k in s.ratings;
    assert s.ratings[k].montoTotalDistribuido == u3.ratings[k].montoTotalDistribuido by {
      if s.ratings[k] == t.ratings[k] {
        assert t.ratings[k].montoTotalDistribuido == u4.ratings[k].montoTotalDistribuido;
      }
    }
    assert s3 == s.(ratings := s.ratings[k := u3.ratings[k]]);
    StoreFactorsAgain(s3, u3, headers, row, index + 2, k, 0);
    IngestRowOnExisting(s, headers, row, index, actor, nem, k, m);
    RowAgainBetween(s, u, t, s3, u3, StoreFactors(s3, headers, row, index + 2, k, 0).value, u4, k);
  }

  /** A row whose issuer and event exist creates neither and goes straight to its rating and factors. */
  lemma IngestRowOnExisting(s: Tables, headers: seq<string>, row: Row, index: nat, actor: nat, nem: string, k: EventKey, m: real)
    requires CreditSum(headers, row) <= CreditTolerance
    requires CharValue(CellAt(row, "Instrumento")) == Some(nem) && nem in s.issuers
    requires RowKey(row, nem, index + 2) == Ok(k) && k in s.events
    requires RowAmount(headers, row) == Some(m)
    requires StoreFactors(UpsertRating(s, k, m, actor), headers, row, index + 2, k, 0).Ok?
    ensures IngestRow(s, headers, row, index, actor) == Ok((StoreFactors(UpsertRating(s, k, m, actor), headers, row, index + 2, k, 0).value, false))
  {
    assert ResolveIssuer(s, headers, row, index) == Ok((s, nem));
    assert ResolveEvent(s, headers, row, index + 2, k, actor) == Ok((s, false));
  }

  /** The bookkeeping half of `IngestRowAgain`: the states after the row are again `Between`. */
  lemma RowAgainBetween(s: Tables, u: Tables, t: Tables, s3: Tables, u3: Tables, s4: Tables, u4: Tables, k: EventKey)
    requires Between(s, u, t)
    requires k in s.ratings && k in u3.ratings && u3.details == u.details
    requires s3 == s.(ratings := s.ratings[k := u3.ratings[k]])
    requires forall x :: x != k ==> (x in u3.ratings <==> x in u.ratings)
    requires forall x :: x != k && x in u.ratings ==> u3.ratings[x] == u.ratings[x]
    requires u4.ratings == u3.ratings
    requires AgainRel(s3, u3, s4, u4)
    ensures Between(s4, u4, t)
  {
  }

  /** From row `i` on, the second run reaches the first run's final state and counts nothing. */
  lemma {:induction false} IngestFromAgain(s: Tables, u: Tables, t: Tables, sheet: Sheet, i: nat, createdU: nat,
                                           createdS: nat, actor: nat)
    requires i <= |sheet.rows|
    requires IngestFrom(u, sheet, i, createdU, actor).Ok? && IngestFrom(u, sheet, i, createdU, actor).value.0 == t
    requires Between(s, u, t)
    ensures IngestFrom(s, sheet, i, createdS, actor) == Ok((t, createdS))
    decreases |sheet.rows| - i
  {
    if i == |sheet.rows| {
      assert s.ratings == t.ratings;
      assert s.details == t.details;
    } else {
      var (u1, c) := IngestRow(u, sheet.headers, sheet.rows[i], i, actor).value;
      var cu := if c then createdU + 1 else createdU;
      assert IngestFrom(u, sheet, i, createdU, actor) == IngestFrom(u1, sheet, i + 1, cu, actor);
      IngestFromGrows(u1, sheet, i + 1, cu, actor);
      IngestRowAgain(s, u, t, sheet.headers, sheet.rows[i], i, actor);
      var s1 := IngestRow(s, sheet.headers, sheet.rows[i], i, actor).value.0;
      IngestFromAgain(s1, u1, t, sheet, i + 1, cu, createdS, actor);
    }
  }

  /**
   * Uploading the same sheet again, by the same user, leaves the tables as the first
   * upload left them and reports no new event.
   */
  lemma UploadIdempotent(t: Tables, fileName: Option<string>, sheet: Sheet, actor: nat)
    requires UploadSpec(t, fileName, sheet, actor).Ok?
    ensures var t1 := UploadSpec(t, fileName, sheet, actor).value.0;
      UploadSpec(t1, fileName, sheet, actor) == Ok((t1, 0))
  {
    var t1 := UploadSpec(t, fileName, sheet, actor).value.0;
    IngestFromAgain(t1, t, t1, sheet, 0, 0, 0, actor);
  }
}
