/** What one ingested row and a whole upload do to the database. */
module UploadProperties {
  import opened Common
  import opened Text
  import opened Models
  import opened Upload

  // ----- The factor loop -----

  /** The factor loop touches only concepts (adding) and the details of rating `k`. */
  lemma {:induction false} StoreFactorsFrame(t: Tables, headers: seq<string>, row: Row, rowNumber: nat, k: EventKey, j: nat)
    requires j <= |headers|
    requires StoreFactors(t, headers, row, rowNumber, k, j).Ok?
    ensures var r := StoreFactors(t, headers, row, rowNumber, k, j).value;
      && r.issuers == t.issuers && r.events == t.events && r.ratings == t.ratings
      && t.nextPk <= r.nextPk
      && (forall c :: c in t.concepts ==> c in r.concepts && r.concepts[c] == t.concepts[c])
      && (forall d: DetailKey :: d.rating != k ==> (d in r.details <==> d in t.details))
      && (forall d :: d in t.details && d.rating != k ==> r.details[d] == t.details[d])
    decreases |headers| - j
  {
    if j < |headers| {
      var h := headers[j];
      var n := FactorNumber(h);
      var c := CellAt(row, h);
      if n.None? || IsBlankCell(c) {
        StoreFactorsFrame(t, headers, row, rowNumber, k, j + 1);
      } else {
        var t1 := EnsureConcept(t, n.value);
        var t2 := t1.(details := t1.details[DetailKey(k, n.value) := DecimalValue(c).value]);
        StoreFactorsFrame(t2, headers, row, rowNumber, k, j + 1);
      }
    }
  }

  /** The factor loop keeps the schema constraints when rating `k` exists. */
  lemma {:induction false} StoreFactorsValid(t: Tables, headers: seq<string>, row: Row, rowNumber: nat, k: EventKey, j: nat)
    requires j <= |headers| && Valid(t) && k in t.ratings
    requires StoreFactors(t, headers, row, rowNumber, k, j).Ok?
    ensures Valid(StoreFactors(t, headers, row, rowNumber, k, j).value)
    decreases |headers| - j
  {
    if j < |headers| {
      var h := headers[j];
      var n := FactorNumber(h);
      var c := CellAt(row, h);
      if n.None? || IsBlankCell(c) {
        StoreFactorsValid(t, headers, row, rowNumber, k, j + 1);
      } else {
        var t1 := EnsureConcept(t, n.value);
        assert Valid(t1);
        var t2 := t1.(details := t1.details[DetailKey(k, n.value) := DecimalValue(c).value]);
        assert Valid(t2);
        StoreFactorsValid(t2, headers, row, rowNumber, k, j + 1);
      }
    }
  }

  /**
   * A "Factor N" header whose number is unique among the headers and whose cell is not
   * blank leaves exactly one detail (k, N), holding the cell's value, and concept N exists.
   */
  lemma {:induction false} StoreFactorsStoresCell(t: Tables, headers: seq<string>, row: Row, rowNumber: nat, k: EventKey,
                                                  j: nat, p: nat, n: int)
    requires j <= p < |headers|
    requires FactorNumber(headers[p]) == Some(n) && !IsBlankCell(CellAt(row, headers[p]))
    requires forall q :: j <= q < |headers| && q != p ==> FactorNumber(headers[q]) != Some(n)
    requires StoreFactors(t, headers, row, rowNumber, k, j).Ok?
    ensures var r := StoreFactors(t, headers, row, rowNumber, k, j).value;
      && n in r.concepts
      && DetailKey(k, n) in r.details
      && Some(r.details[DetailKey(k, n)]) == DecimalValue(CellAt(row, headers[p]))
    decreases |headers| - j
  {
    if j == p {
      StoreFactorsStoresHere(t, headers, row, rowNumber, k, j, n);
    } else {
      var h := headers[j];
      var c := CellAt(row, h);
      var m := FactorNumber(h);
      if m.None? || IsBlankCell(c) {
        assert StoreFactors(t, headers, row, rowNumber, k, j) == StoreFactors(t, headers, row, rowNumber, k, j + 1);
        StoreFactorsStoresCell(t, headers, row, rowNumber, k, j + 1, p, n);
      } else {
        var t1 := EnsureConcept(t, m.value);
        var t2 := t1.(details := t1.details[DetailKey(k, m.value) := DecimalValue(c).value]);
        assert StoreFactors(t, headers, row, rowNumber, k, j) == StoreFactors(t2, headers, row, rowNumber, k, j + 1);
        StoreFactorsStoresCell(t2, headers, row, rowNumber, k, j + 1, p, n);
      }
    }
  }

  /** The `StoreFactorsStoresCell` case where the loop stands at the one "Factor n" header. */
  lemma StoreFactorsStoresHere(t: Tables, headers: seq<string>, row: Row, rowNumber: nat, k: EventKey, j: nat, n: int)
    requires j < |headers|
    requires FactorNumber(headers[j]) == Some(n) && !IsBlankCell(CellAt(row, headers[j]))
    requires forall q :: j < q < |headers| ==> FactorNumber(headers[q]) != Some(n)
    requires StoreFactors(t, headers, row, rowNumber, k, j).Ok?
    ensures var r := StoreFactors(t, headers, row, rowNumber, k, j).value;
      && n in r.concepts
      && DetailKey(k, n) in r.details
      && Some(r.details[DetailKey(k, n)]) == DecimalValue(CellAt(row, headers[j]))
  {
    var c := CellAt(row, headers[j]);
    assert DecimalValue(c).Some?;
    var t1 := EnsureConcept(t, n);
    var t2 := t1.(details := t1.details[DetailKey(k, n) := DecimalValue(c).value]);
    assert StoreFactors(t, headers, row, rowNumber, k, j) == StoreFactors(t2, headers, row, rowNumber, k, j + 1);
    assert n in t2.concepts && t2.details[DetailKey(k, n)] == DecimalValue(c).value;
    var r := StoreFactors(t2, headers, row, rowNumber, k, j + 1).value;
    StoreFactorsUntouched(t2, headers, row, rowNumber, k, j + 1, n);
    assert DetailKey(k, n) in r.details && r.details[DetailKey(k, n)] == DecimalValue(c).value;
    StoreFactorsFrame(t2, headers, row, rowNumber, k, j + 1);
    assert n in r.concepts;
  }

  /**
   * A concept number that no non-blank "Factor" cell names keeps its detail (k, n) as it
   * was: headers whose suffix is not an integer, and blank cells, change nothing.
   */
  lemma {:induction false} StoreFactorsUntouched(t: Tables, headers: seq<string>, row: Row, rowNumber: nat, k: EventKey,
                                                 j: nat, n: int)
    requires j <= |headers|
    requires forall q :: j <= q < |headers| && FactorNumber(headers[q]) == Some(n) ==> IsBlankCell(CellAt(row, headers[q]))
    requires StoreFactors(t, headers, row, rowNumber, k, j).Ok?
    ensures var r := StoreFactors(t, headers, row, rowNumber, k, j).value;
      && (DetailKey(k, n) in r.details <==> DetailKey(k, n) in t.details)
      && (DetailKey(k, n) in t.details ==> r.details[DetailKey(k, n)] == t.details[DetailKey(k, n)])
    decreases |headers| - j
  {
    if j < |headers| {
      var h := headers[j];
      var c := CellAt(row, h);
      var m := FactorNumber(h);
      if m.None? || IsBlankCell(c) {
        StoreFactorsUntouched(t, headers, row, rowNumber, k, j + 1, n);
      } else {
        var t1 := EnsureConcept(t, m.value);
        var t2 := t1.(details := t1.details[DetailKey(k, m.value) := DecimalValue(c).value]);
        StoreFactorsUntouched(t2, headers, row, rowNumber, k, j + 1, n);
      }
    }
  }

  // ----- One row -----

  /**
   * The company type of a new issuer: 'C' for a text that upper-cases to something
   * containing "CERRADA" or to "C", 'A' for any other text and when the column is absent.
   */
  lemma InferCompanyTypeCases(s: string)
    ensures InferCompanyType(Some(Chars(s))) == Closed <==> Contains(UpperStr(s), "CERRADA") || UpperStr(s) == "C"
    ensures InferCompanyType(None) == Open
    ensures forall x :: InferCompanyType(Some(Number(x))) == Open
    ensures forall d :: InferCompanyType(Some(Date(d))) == Open
    ensures InferCompanyType(Some(Blank)) == Open
    ensures InferCompanyType(Some(Chars("Sociedad Cerrada"))) == Closed
    ensures InferCompanyType(Some(Chars("c"))) == Closed
    ensures InferCompanyType(Some(Chars("Abierta"))) == Open
  {
    assert OccursAt(UpperStr("Sociedad Cerrada"), "CERRADA", 9);
    assert UpperStr("c") == "C";
    assert UpperStr("Abierta") == "ABIERTA";
    assert "ABIERTA"[0..7][0] != "CERRADA"[0];
    assert UpperStr("nan") == "NAN";
  }

  /**
   * What an ingested row does: the issuer is reused or created from the row, the event
   * is reused unchanged or created (and the flag says which), the event's rating is set
   * to BORRADOR with the row's amount, and no other rating or other rating's detail changes.
   */
  lemma IngestRowEffect(t: Tables, headers: seq<string>, row: Row, index: nat, actor: nat)
    requires IngestRow(t, headers, row, index, actor).Ok?
    ensures CreditSum(headers, row) <= CreditTolerance
    ensures CharValue(CellAt(row, "Instrumento")).Some?
    ensures RowKey(row, CharValue(CellAt(row, "Instrumento")).value, index + 2).Ok?
    ensures RowAmount(headers, row).Some?
    ensures var nem := CharValue(CellAt(row, "Instrumento")).value;
      var r := IngestRow(t, headers, row, index, actor).value.0;
      && nem in r.issuers
      && (nem in t.issuers ==> r.issuers == t.issuers)
      && (nem !in t.issuers ==>
            && RutFor(headers, row, index).Some?
            && r.issuers == t.issuers[nem := Issuer(RutFor(headers, row, index).value, nem,
                                                    InferCompanyType(Lookup(headers, row, "Tipo sociedad")))])
    ensures var nem := CharValue(CellAt(row, "Instrumento")).value;
      var k := RowKey(row, nem, index + 2).value;
      var (r, created) := IngestRow(t, headers, row, index, actor).value;
      && k in r.events
      && (created <==> k !in t.events)
      && (k in t.events ==> r.events == t.events)
      && (k !in t.events ==> NewEvent(headers, row, actor).Ok? && r.events == t.events[k := NewEvent(headers, row, actor).value])
    ensures var nem := CharValue(CellAt(row, "Instrumento")).value;
      var k := RowKey(row, nem, index + 2).value;
      var r := IngestRow(t, headers, row, index, actor).value.0;
      && k in r.ratings
      && r.ratings[k].estado == Borrador
      && r.ratings[k].montoUnitarioPesos == RowAmount(headers, row).value
      && r.ratings[k].modificadoPor == Some(actor)
      && r.ratings[k].montoTotalDistribuido == (if k in t.ratings then t.ratings[k].montoTotalDistribuido else 0.0)
      && (forall j :: j != k ==> (j in r.ratings <==> j in t.ratings))
      && (forall j :: j != k && j in t.ratings ==> r.ratings[j] == t.ratings[j])
      && (forall d: DetailKey :: d.rating != k ==> (d in r.details <==> d in t.details))
      && (forall d :: d in t.details && d.rating != k ==> r.details[d] == t.details[d])
  {
    IngestRowSteps(t, headers, row, index, actor);
    var (t1, nem) := ResolveIssuer(t, headers, row, index).value;
    ResolveIssuerFrame(t, headers, row, index);
    var k := RowKey(row, nem, index + 2).value;
    var (t2, created) := ResolveEvent(t1, headers, row, index + 2, k, actor).value;
    var t3 := UpsertRating(t2, k, RowAmount(headers, row).value, actor);
    StoreFactorsFrame(t3, headers, row, index + 2, k, 0);
  }

  /** A successful row goes through each step of `IngestRow` in turn, and ends in the factor loop's state. */
  lemma IngestRowSteps(t: Tables, headers: seq<string>, row: Row, index: nat, actor: nat)
    requires IngestRow(t, headers, row, index, actor).Ok?
    ensures CreditSum(headers, row) <= CreditTolerance
    ensures ResolveIssuer(t, headers, row, index).Ok?
    ensures var (t1, nem) := ResolveIssuer(t, headers, row, index).value;
      && RowKey(row, nem, index + 2).Ok?
      && ResolveEvent(t1, headers, row, index + 2, RowKey(row, nem, index + 2).value, actor).Ok?
      && RowAmount(headers, row).Some?
    ensures var (t1, nem) := ResolveIssuer(t, headers, row, index).value;
      var k := RowKey(row, nem, index + 2).value;
      var (t2, created) := ResolveEvent(t1, headers, row, index + 2, k, actor).value;
      var t3 := UpsertRating(t2, k, RowAmount(headers, row).value, actor);
      && StoreFactors(t3, headers, row, index + 2, k, 0).Ok?
      && IngestRow(t, headers, row, index, actor).value == (StoreFactors(t3, headers, row, index + 2, k, 0).value, created)
  {
  }

  /** Resolving the issuer touches the issuer table alone and names the row's ticker. */
  lemma ResolveIssuerFrame(t: Tables, headers: seq<string>, row: Row, index: nat)
    requires ResolveIssuer(t, headers, row, index).Ok?
    ensures var (r, nem) := ResolveIssuer(t, headers, row, index).value;
      && CharValue(CellAt(row, "Instrumento")) == Some(nem)
      && r == t.(issuers := r.issuers)
  {
  }

  /** Ingesting a row keeps the schema constraints. */
  lemma IngestRowValid(t: Tables, headers: seq<string>, row: Row, index: nat, actor: nat)
    requires Valid(t)
    requires IngestRow(t, headers, row, index, actor).Ok?
    ensures Valid(IngestRow(t, headers, row, index, actor).value.0)
  {
    IngestRowSteps(t, headers, row, index, actor);
    var (t1, nem) := ResolveIssuer(t, headers, row, index).value;
    ResolveIssuerValid(t, headers, row, index);
    var k := RowKey(row, nem, index + 2).value;
    var t2 := ResolveEvent(t1, headers, row, index + 2, k, actor).value.0;
    ResolveEventValid(t1, headers, row, index + 2, k, actor);
    var t3 := UpsertRating(t2, k, RowAmount(headers, row).value, actor);
    UpsertRatingValid(t2, k, RowAmount(headers, row).value, actor);
    StoreFactorsValid(t3, headers, row, index + 2, k, 0);
  }

  lemma ResolveIssuerValid(t: Tables, headers: seq<string>, row: Row, index: nat)
    requires Valid(t) && ResolveIssuer(t, headers, row, index).Ok?
    ensures var (r, nem) := ResolveIssuer(t, headers, row, index).value;
      Valid(r) && nem in r.issuers && r.events == t.events
  {
    var (r, nem) := ResolveIssuer(t, headers, row, index).value;
    ResolveIssuerFrame(t, headers, row, index);
    if nem !in t.issuers {
      var rut := RutFor(headers, row, index).value;
      AddIssuerValid(t, nem, Issuer(rut, nem, InferCompanyType(Lookup(headers, row, "Tipo sociedad"))));
    }
  }

  /** Adding an issuer under a fresh ticker with a rut nobody has keeps the constraints. */
  lemma AddIssuerValid(t: Tables, nem: string, i: Issuer)
    requires Valid(t) && nem !in t.issuers && RutFree(t, i.rut)
    ensures Valid(t.(issuers := t.issuers[nem := i]))
  {
  }

  lemma ResolveEventValid(t: Tables, headers: seq<string>, row: Row, rowNumber: nat, k: EventKey, actor: nat)
    requires Valid(t) && k.emisor in t.issuers && ResolveEvent(t, headers, row, rowNumber, k, actor).Ok?
    ensures var r := ResolveEvent(t, headers, row, rowNumber, k, actor).value.0;
      Valid(r) && k in r.events
  {
  }

  lemma UpsertRatingValid(t: Tables, k: EventKey, monto: real, actor: nat)
    requires Valid(t) && k in t.events
    ensures Valid(UpsertRating(t, k, monto, actor)) && k in UpsertRating(t, k, monto, actor).ratings
  {
  }

  /**
   * After the row, a "Factor N" column with a non-blank cell (and no other column carrying
   * number N) has its value in the one detail (rating, concept N).
   */
  lemma IngestRowStoresFactor(t: Tables, headers: seq<string>, row: Row, index: nat, actor: nat, p: nat, n: int)
    requires p < |headers|
    requires FactorNumber(headers[p]) == Some(n) && !IsBlankCell(CellAt(row, headers[p]))
    requires forall q :: 0 <= q < |headers| && q != p ==> FactorNumber(headers[q]) != Some(n)
    requires IngestRow(t, headers, row, index, actor).Ok?
    ensures CharValue(CellAt(row, "Instrumento")).Some?
    ensures RowKey(row, CharValue(CellAt(row, "Instrumento")).value, index + 2).Ok?
    ensures var k := RowKey(row, CharValue(CellAt(row, "Instrumento")).value, index + 2).value;
      var r := IngestRow(t, headers, row, index, actor).value.0;
      && n in r.concepts
      && DetailKey(k, n) in r.details
      && Some(r.details[DetailKey(k, n)]) == DecimalValue(CellAt(row, headers[p]))
  {
    var nem := CharValue(CellAt(row, "Instrumento")).value;
    var t1 := ResolveIssuer(t, headers, row, index).value.0;
    var k := RowKey(row, nem, index + 2).value;
    var t2 := ResolveEvent(t1, headers, row, index + 2, k, actor).value.0;
    var t3 := UpsertRating(t2, k, RowAmount(headers, row).value, actor);
    StoreFactorsStoresCell(t3, headers, row, index + 2, k, 0, p, n);
  }

  /** A row adds one event when it creates one, and none otherwise. */
  lemma IngestRowEventCount(t: Tables, headers: seq<string>, row: Row, index: nat, actor: nat)
    requires IngestRow(t, headers, row, index, actor).Ok?
    ensures var (r, created) := IngestRow(t, headers, row, index, actor).value;
      |r.events| == |t.events| + (if created then 1 else 0)
      && (forall k :: k in t.events ==> k in r.events && r.events[k] == t.events[k])
  {
    IngestRowEffect(t, headers, row, index, actor);
  }

  // ----- The whole batch -----

  lemma {:induction false} IngestFromValid(t: Tables, sheet: Sheet, i: nat, created: nat, actor: nat)
    requires i <= |sheet.rows| && Valid(t)
    requires IngestFrom(t, sheet, i, created, actor).Ok?
    ensures Valid(IngestFrom(t, sheet, i, created, actor).value.0)
    decreases |sheet.rows| - i
  {
    if i < |sheet.rows| {
      IngestRowValid(t, sheet.headers, sheet.rows[i], i, actor);
      var (t1, c) := IngestRow(t, sheet.headers, sheet.rows[i], i, actor).value;
      IngestFromValid(t1, sheet, i + 1, if c then created + 1 else created, actor);
    }
  }

  /**
   * `registros_creados` counts exactly the events the batch added, and events that
   * existed before keep their fields.
   */
  lemma {:induction false} IngestFromCountsNewEvents(t: Tables, sheet: Sheet, i: nat, created: nat, actor: nat)
    requires i <= |sheet.rows|
    requires IngestFrom(t, sheet, i, created, actor).Ok?
    ensures var (r, n) := IngestFrom(t, sheet, i, created, actor).value;
      && n == created + |r.events| - |t.events|
      && (forall k :: k in t.events ==> k in r.events && r.events[k] == t.events[k])
    decreases |sheet.rows| - i
  {
    if i < |sheet.rows| {
      IngestRowEventCount(t, sheet.headers, sheet.rows[i], i, actor);
      var (t1, c) := IngestRow(t, sheet.headers, sheet.rows[i], i, actor).value;
      IngestFromCountsNewEvents(t1, sheet, i + 1, if c then created + 1 else created, actor);
    }
  }

  /** A row over the credit limit anywhere in the batch makes the batch fail. */
  lemma {:induction false} IngestFromRejectsExcess(t: Tables, sheet: Sheet, i: nat, created: nat, actor: nat, j: nat)
    requires i <= j < |sheet.rows|
    requires CreditSum(sheet.headers, sheet.rows[j]) > CreditTolerance
    ensures IngestFrom(t, sheet, i, created, actor).Err?
    decreases j - i
  {
    if i < j {
      var step := IngestRow(t, sheet.headers, sheet.rows[i], i, actor);
      if step.Ok? {
        var (t1, c) := step.value;
        IngestFromRejectsExcess(t1, sheet, i + 1, if c then created + 1 else created, actor, j);
      }
    }
  }

  /** A missing required column aborts the upload, naming the first one missing. */
  lemma UploadMissingColumn(t: Tables, fileName: Option<string>, sheet: Sheet, actor: nat, col: string)
    requires AcceptsFileName(fileName)
    requires col in RequiredColumns && col !in sheet.headers
    ensures UploadSpec(t, fileName, sheet, actor).Err?
    ensures UploadSpec(t, fileName, sheet, actor).error.MissingColumn?
    ensures UploadSpec(t, fileName, sheet, actor).error.column in RequiredColumns
  {
  }

  /**
   * A row whose credit factors sum above 1.000001 rejects the whole upload; with
   * `UploadFile`'s postcondition, none of the batch's writes persist.
   */
  lemma UploadRejectsExcess(t: Tables, fileName: Option<string>, sheet: Sheet, actor: nat, j: nat)
    requires j < |sheet.rows|
    requires CreditSum(sheet.headers, sheet.rows[j]) > CreditTolerance
    ensures UploadSpec(t, fileName, sheet, actor).Err?
  {
    if AcceptsFileName(fileName) && FirstMissing(sheet.headers, RequiredColumns).None? {
      IngestFromRejectsExcess(t, sheet, 0, 0, actor, j);
    }
  }

  /** A successful upload keeps the schema constraints and reports the events it added. */
  lemma UploadValidAndCount(t: Tables, fileName: Option<string>, sheet: Sheet, actor: nat)
    requires Valid(t)
    requires UploadSpec(t, fileName, sheet, actor).Ok?
    ensures var (r, n) := UploadSpec(t, fileName, sheet, actor).value;
      && Valid(r)
      && n == |r.events| - |t.events|
      && (forall k :: k in t.events ==> k in r.events && r.events[k] == t.events[k])
  {
    IngestFromValid(t, sheet, 0, 0, actor);
    IngestFromCountsNewEvents(t, sheet, 0, 0, actor);
  }

  // ----- Choice domains -----

  /** The row's "Mercado" cell, when the sheet has that column, names a market code. */
  predicate MarketCellChosen(headers: seq<string>, row: Row) {
    "Mercado" in headers ==> CharValue(CellAt(row, "Mercado")).Some? ==> CharValue(CellAt(row, "Mercado")).value in MarketCodes
  }

  /**
   * One row keeps every market and state within its choices when its own market cell is
   * a code (or the column is absent, giving ACN): the rating is always set to BORRADOR.
   */
  lemma IngestRowChoices(t: Tables, headers: seq<string>, row: Row, index: nat, actor: nat)
    requires ChoicesHold(t) && MarketCellChosen(headers, row)
    requires IngestRow(t, headers, row, index, actor).Ok?
    ensures ChoicesHold(IngestRow(t, headers, row, index, actor).value.0)
  {
    IngestRowSteps(t, headers, row, index, actor);
    var (t1, nem) := ResolveIssuer(t, headers, row, index).value;
    ResolveIssuerFrame(t, headers, row, index);
    var k := RowKey(row, nem, index + 2).value;
    var (t2, created) := ResolveEvent(t1, headers, row, index + 2, k, actor).value;
    assert ChoicesHold(t2);
    var t3 := UpsertRating(t2, k, RowAmount(headers, row).value, actor);
    assert ChoicesHold(t3);
    StoreFactorsFrame(t3, headers, row, index + 2, k, 0);
  }

  lemma {:induction false} IngestFromChoices(t: Tables, sheet: Sheet, i: nat, created: nat, actor: nat)
    requires i <= |sheet.rows| && ChoicesHold(t)
    requires forall j :: 0 <= j < |sheet.rows| ==> MarketCellChosen(sheet.headers, sheet.rows[j])
    requires IngestFrom(t, sheet, i, created, actor).Ok?
    ensures ChoicesHold(IngestFrom(t, sheet, i, created, actor).value.0)
    decreases |sheet.rows| - i
  {
    if i < |sheet.rows| {
      IngestRowChoices(t, sheet.headers, sheet.rows[i], i, actor);
      var (t1, c) := IngestRow(t, sheet.headers, sheet.rows[i], i, actor).value;
      IngestFromChoices(t1, sheet, i + 1, if c then created + 1 else created, actor);
    }
  }

  /**
   * An upload whose "Mercado" cells are market codes, or whose sheet has no such column,
   * keeps every stored market and rating state within its choices.
   */
  lemma UploadKeepsChoices(t: Tables, fileName: Option<string>, sheet: Sheet, actor: nat)
    requires ChoicesHold(t)
    requires forall j :: 0 <= j < |sheet.rows| ==> MarketCellChosen(sheet.headers, sheet.rows[j])
    requires UploadSpec(t, fileName, sheet, actor).Ok?
    ensures ChoicesHold(UploadSpec(t, fileName, sheet, actor).value.0)
  {
    IngestFromChoices(t, sheet, 0, 0, actor);
  }
}
