/**
 * The manual create, edit and delete views for ratings. Each runs in
 * `transaction.atomic`: an error (a missing field, a key clash, a factor text that is
 * not a decimal) leaves the database as it was.
 */
module RatingViews {
  import opened Common
  import opened Text
  import opened Models
  import Store

  datatype ViewError =
    | NotFound
    | MissingField(field: string)
    | NegativeValue(field: string)
    | DuplicateEvent
    | InvalidFactorValue

  // ----- The factor fields of a form -----

  /** `request.POST.get(f'factor_{pk}')`. */
  function FactorField(data: map<string, string>, pk: nat): Option<string> {
    var key := "factor_" + NatToString(pk);
    if key in data then Some(data[key]) else None
  }

  /** `valor_factor is not None and valor_factor != ''`. */
  predicate Submitted(data: map<string, string>, pk: nat) {
    var f := FactorField(data, pk);
    f.Some? && f.value != ""
  }

  /** The decimal a submitted factor field holds, if it is submitted and reads as one. */
  function FactorValue(data: map<string, string>, pk: nat): Option<real> {
    if Submitted(data, pk) then ParseDecimal(FactorField(data, pk).value) else None
  }

  /** Every non-blank factor field of the form reads as a decimal. */
  predicate FactorsParse(concepts: map<int, Concept>, data: map<string, string>) {
    forall c :: c in concepts && Submitted(data, concepts[c].pk) ==> FactorValue(data, concepts[c].pk).Some?
  }

  /**
   * The detail table after the factor loop of the edit view has handled the concepts
   * (by column) in `done`: for those, rating `k` has a detail exactly when the form
   * submitted a value; every other detail is as before.
   */
  function SyncedDetails(details: map<DetailKey, real>, k: EventKey, concepts: map<int, Concept>,
                         data: map<string, string>, done: set<int>): map<DetailKey, real>
  {
    (map d | d in details && !(d.rating == k && d.concepto in done) :: details[d])
    + (map c | c in done && c in concepts && FactorValue(data, concepts[c].pk).Some?
         :: DetailKey(k, c) := FactorValue(data, concepts[c].pk).value)
  }

  /** The details the factor loop of the create view adds for the new rating `k`. */
  function NewDetails(k: EventKey, concepts: map<int, Concept>, data: map<string, string>, done: set<int>)
    : map<DetailKey, real>
  {
    map c | c in done && c in concepts && FactorValue(data, concepts[c].pk).Some?
      :: DetailKey(k, c) := FactorValue(data, concepts[c].pk).value
  }

  // ----- Specifications -----

  /** The fields of the edit form: `None` where the POST lacks the field. */
  datatype EditForm = EditForm(monto: Option<real>, estado: Option<string>, data: map<string, string>)

  /** `edit_calificacion_view` on a POST for the rating of event `k`. */
  function EditSpec(t: Tables, k: EventKey, form: EditForm, actor: nat): Result<Tables, ViewError> {
    if k !in t.ratings then Err(NotFound)
    else if form.monto.None? then Err(MissingField("monto_unitario_pesos"))
    else if !FactorsParse(t.concepts, form.data) then Err(InvalidFactorValue)
    else
      var current := t.ratings[k];
      var r := current.(montoUnitarioPesos := form.monto.value, estado := form.estado.GetOr(current.estado),
                    modificadoPor := Some(actor));
      Ok(t.(ratings := t.ratings[k := r],
            details := SyncedDetails(t.details, k, t.concepts, form.data, t.concepts.Keys)))
  }

  /** The fields of the create form: `None` where the POST lacks the field. */
  datatype CreateForm = CreateForm(
    emisor: Option<string>,
    mercado: Option<string>,
    fechaPago: Option<int>,
    numeroDividendo: Option<int>,
    ejercicioComercial: Option<int>,
    monto: Option<real>,
    estado: Option<string>,
    data: map<string, string>)

  /** `create_calificacion_view` on a POST: the new database and the new event's key. */
  function CreateSpec(t: Tables, form: CreateForm, actor: nat): Result<(Tables, EventKey), ViewError> {
    if form.emisor.None? || form.emisor.value !in t.issuers then Err(NotFound)
    else if form.mercado.None? then Err(MissingField("mercado"))
    else if form.fechaPago.None? then Err(MissingField("fecha_pago"))
    else if form.numeroDividendo.None? then Err(MissingField("numero_dividendo"))
    else if form.numeroDividendo.value < 0 then Err(NegativeValue("numero_dividendo"))
    else if form.ejercicioComercial.None? then Err(MissingField("ejercicio_comercial"))
    else if form.ejercicioComercial.value < 0 then Err(NegativeValue("ejercicio_comercial"))
    else
      var k := EventKey(form.emisor.value, form.numeroDividendo.value, form.ejercicioComercial.value);
      if k in t.events then Err(DuplicateEvent)
      else if form.monto.None? then Err(MissingField("monto_unitario_pesos"))
      else if form.estado.None? then Err(MissingField("estado"))
      else if !FactorsParse(t.concepts, form.data) then Err(InvalidFactorValue)
      else
        var e := Event(form.mercado.value, form.fechaPago.value, None, 0, Some(actor));
        var r := Rating(0.0, form.monto.value, form.estado.value, Some(actor));
        Ok((t.(events := t.events[k := e], ratings := t.ratings[k := r],
               details := t.details + NewDetails(k, t.concepts, form.data, t.concepts.Keys)), k))
  }

  /** `delete_calificacion_view` on a POST: the rating goes, and its details with it. */
  function DeleteSpec(t: Tables, k: EventKey): Result<Tables, ViewError> {
    if k !in t.ratings then Err(NotFound) else Ok(DeleteRating(t, k))
  }

  // ----- The views, step by step on the database -----

  /** The edit view's loop over all concepts: upsert a submitted factor, delete a blank one. */
  method SyncFactorsStep(db: Store.Database, k: EventKey, data: map<string, string>) returns (ok: bool)
    modifies db
    ensures ok <==> FactorsParse(old(db.concepts), data)
    ensures db.issuers == old(db.issuers) && db.concepts == old(db.concepts) && db.nextPk == old(db.nextPk)
    ensures db.events == old(db.events) && db.ratings == old(db.ratings)
    ensures ok ==> db.details == SyncedDetails(old(db.details), k, db.concepts, data, db.concepts.Keys)
  {
    var todo := db.concepts.Keys;
    ghost var done: set<int> := {};
    while todo != {}
      invariant todo + done == db.concepts.Keys && todo !! done
      invariant db.issuers == old(db.issuers) && db.concepts == old(db.concepts) && db.nextPk == old(db.nextPk)
      invariant db.events == old(db.events) && db.ratings == old(db.ratings)
      invariant db.details == SyncedDetails(old(db.details), k, db.concepts, data, done)
      invariant forall c :: c in done && Submitted(data, db.concepts[c].pk) ==> FactorValue(data, db.concepts[c].pk).Some?
      decreases todo
    {
      ghost var some := Pick(todo);
      var c :| c in todo;
      var pk := db.concepts[c].pk;
      var field := FactorField(data, pk);
      SyncStep(old(db.details), k, db.concepts, data, done, c);
      if field.Some? && field.value != "" {
        var v := ParseDecimal(field.value);
        if v.None? {
          assert Submitted(data, pk) && FactorValue(data, pk).None?;
          return false;
        }
        assert FactorValue(data, pk) == v;
        db.details := db.details[DetailKey(k, c) := v.value];
      } else {
        assert FactorValue(data, pk).None?;
        db.details := db.details - {DetailKey(k, c)};
      }
      todo := todo - {c};
      done := done + {c};
    }
    return true;
  }

  /** A detail is in the synced table exactly as `SyncedDetails` describes. */
  lemma SyncedAt(details: map<DetailKey, real>, k: EventKey, concepts: map<int, Concept>,
                 data: map<string, string>, done: set<int>, d: DetailKey)
    ensures var r := SyncedDetails(details, k, concepts, data, done);
      if d.rating == k && d.concepto in done then
        (d in r <==> d.concepto in concepts && FactorValue(data, concepts[d.concepto].pk).Some?)
        && (d in r ==> r[d] == FactorValue(data, concepts[d.concepto].pk).value)
      else
        (d in r <==> d in details) && (d in r ==> r[d] == details[d])
  {
    var kept := map d | d in details && !(d.rating == k && d.concepto in done) :: details[d];
    var added := map c | c in done && c in concepts && FactorValue(data, concepts[c].pk).Some?
                   :: DetailKey(k, c) := FactorValue(data, concepts[c].pk).value;
    if d.rating == k && d.concepto in done {
      assert d !in kept;
      assert d == DetailKey(k, d.concepto);
    } else {
      assert d !in added;
    }
  }

  /** Handling one more concept `c` updates the synced table at (k, c) alone. */
  lemma SyncStep(details: map<DetailKey, real>, k: EventKey, concepts: map<int, Concept>,
                 data: map<string, string>, done: set<int>, c: int)
    requires c in concepts && c !in done
    ensures var before := SyncedDetails(details, k, concepts, data, done);
      var v := FactorValue(data, concepts[c].pk);
      SyncedDetails(details, k, concepts, data, done + {c})
        == if v.Some? then before[DetailKey(k, c) := v.value] else before - {DetailKey(k, c)}
  {
    var before := SyncedDetails(details, k, concepts, data, done);
    var after := SyncedDetails(details, k, concepts, data, done + {c});
    var v := FactorValue(data, concepts[c].pk);
    var expected := if v.Some? then before[DetailKey(k, c) := v.value] else before - {DetailKey(k, c)};
    forall d
      ensures (d in after <==> d in expected) && (d in after ==> after[d] == expected[d])
    {
      SyncedAt(details, k, concepts, data, done, d);
      SyncedAt(details, k, concepts, data, done + {c}, d);
    }
  }

  /** A detail is among the new ones exactly as `NewDetails` describes. */
  lemma NewDetailsAt(k: EventKey, concepts: map<int, Concept>, data: map<string, string>, done: set<int>, d: DetailKey)
    ensures var r := NewDetails(k, concepts, data, done);
      && (d in r <==> d.rating == k && d.concepto in done && d.concepto in concepts
                      && FactorValue(data, concepts[d.concepto].pk).Some?)
      && (d in r ==> r[d] == FactorValue(data, concepts[d.concepto].pk).value)
  {
    if d in NewDetails(k, concepts, data, done) {
      assert d == DetailKey(k, d.concepto);
    }
  }

  /** Handling one more concept `c` adds at most the detail (k, c). */
  lemma NewDetailsStep(k: EventKey, concepts: map<int, Concept>, data: map<string, string>, done: set<int>, c: int)
    requires c in concepts && c !in done
    ensures var before := NewDetails(k, concepts, data, done);
      var v := FactorValue(data, concepts[c].pk);
      NewDetails(k, concepts, data, done + {c}) == if v.Some? then before[DetailKey(k, c) := v.value] else before
  {
    var before := NewDetails(k, concepts, data, done);
    var after := NewDetails(k, concepts, data, done + {c});
    var v := FactorValue(data, concepts[c].pk);
    var expected := if v.Some? then before[DetailKey(k, c) := v.value] else before;
    forall d: DetailKey
      ensures (d in after <==> d in expected) && (d in after ==> after[d] == expected[d])
    {
      NewDetailsAt(k, concepts, data, done, d);
      NewDetailsAt(k, concepts, data, done + {c}, d);
    }
    assert after == expected;
  }

  lemma UpdateAfterUnion(a: map<DetailKey, real>, b: map<DetailKey, real>, x: DetailKey, v: real)
    ensures (a + b)[x := v] == a + b[x := v]
  {
  }

  /** The create view's loop over all concepts: add a detail for every submitted factor. */
  method CreateFactorsStep(db: Store.Database, k: EventKey, data: map<string, string>) returns (ok: bool)
    modifies db
    ensures ok <==> FactorsParse(old(db.concepts), data)
    ensures db.issuers == old(db.issuers) && db.concepts == old(db.concepts) && db.nextPk == old(db.nextPk)
    ensures db.events == old(db.events) && db.ratings == old(db.ratings)
    ensures ok ==> db.details == old(db.details) + NewDetails(k, db.concepts, data, db.concepts.Keys)
  {
    var todo := db.concepts.Keys;
    ghost var done: set<int> := {};
    while todo != {}
      invariant todo + done == db.concepts.Keys && todo !! done
      invariant db.issuers == old(db.issuers) && db.concepts == old(db.concepts) && db.nextPk == old(db.nextPk)
      invariant db.events == old(db.events) && db.ratings == old(db.ratings)
      invariant db.details == old(db.details) + NewDetails(k, db.concepts, data, done)
      invariant forall c :: c in done && Submitted(data, db.concepts[c].pk) ==> FactorValue(data, db.concepts[c].pk).Some?
      decreases todo
    {
      ghost var some := Pick(todo);
      var c :| c in todo;
      var field := FactorField(data, db.concepts[c].pk);
      NewDetailsStep(k, db.concepts, data, done, c);
      if field.Some? && field.value != "" {
        var v := ParseDecimal(field.value);
        if v.None? {
          return false;
        }
        UpdateAfterUnion(old(db.details), NewDetails(k, db.concepts, data, done), DetailKey(k, c), v.value);
        db.details := db.details[DetailKey(k, c) := v.value];
      }
      todo := todo - {c};
      done := done + {c};
    }
    return true;
  }

  /** `create_calificacion_view`: all of it happens, or (on an error) none of it. */
  method CreateRating(db: Store.Database, form: CreateForm, actor: nat) returns (r: Result<EventKey, ViewError>)
    modifies db
    ensures var spec := CreateSpec(old(db.State()), form, actor);
      && (r.Ok? <==> spec.Ok?)
      && (spec.Ok? ==> r.value == spec.value.1 && db.State() == spec.value.0)
      && (spec.Err? ==> r.error == spec.error && db.State() == old(db.State()))
  {
    if form.emisor.None? || form.emisor.value !in db.issuers {
      return Err(NotFound);
    }
    if form.mercado.None? {
      return Err(MissingField("mercado"));
    }
    if form.fechaPago.None? {
      return Err(MissingField("fecha_pago"));
    }
    if form.numeroDividendo.None? {
      return Err(MissingField("numero_dividendo"));
    }
    if form.numeroDividendo.value < 0 {
      return Err(NegativeValue("numero_dividendo"));
    }
    if form.ejercicioComercial.None? {
      return Err(MissingField("ejercicio_comercial"));
    }
    if form.ejercicioComercial.value < 0 {
      return Err(NegativeValue("ejercicio_comercial"));
    }
    var k := EventKey(form.emisor.value, form.numeroDividendo.value, form.ejercicioComercial.value);
    if k in db.events {
      return Err(DuplicateEvent);
    }
    var saved := db.State();
    db.events := db.events[k := Event(form.mercado.value, form.fechaPago.value, None, 0, Some(actor))];
    if form.monto.None? {
      db.Restore(saved);
      return Err(MissingField("monto_unitario_pesos"));
    }
    if form.estado.None? {
      db.Restore(saved);
      return Err(MissingField("estado"));
    }
    db.ratings := db.ratings[k := Rating(0.0, form.monto.value, form.estado.value, Some(actor))];
    var ok := CreateFactorsStep(db, k, form.data);
    if !ok {
      db.Restore(saved);
      return Err(InvalidFactorValue);
    }
    return Ok(k);
  }

  /** `edit_calificacion_view`: the rating and its factors change together, or not at all. */
  method EditRating(db: Store.Database, k: EventKey, form: EditForm, actor: nat) returns (err: Option<ViewError>)
    modifies db
    ensures var spec := EditSpec(old(db.State()), k, form, actor);
      && (err.None? <==> spec.Ok?)
      && (spec.Ok? ==> db.State() == spec.value)
      && (spec.Err? ==> err == Some(spec.error) && db.State() == old(db.State()))
  {
    if k !in db.ratings {
      return Some(NotFound);
    }
    if form.monto.None? {
      return Some(MissingField("monto_unitario_pesos"));
    }
    var saved := db.State();
    var current := db.ratings[k];
    db.ratings := db.ratings[k := current.(montoUnitarioPesos := form.monto.value,
                                           estado := form.estado.GetOr(current.estado),
                                           modificadoPor := Some(actor))];
    var ok := SyncFactorsStep(db, k, form.data);
    if !ok {
      db.Restore(saved);
      return Some(InvalidFactorValue);
    }
    return None;
  }

  /** `delete_calificacion_view` on a POST: the cascade removes the rating's details first. */
  method DeleteRatingView(db: Store.Database, k: EventKey) returns (err: Option<ViewError>)
    modifies db
    ensures var spec := DeleteSpec(old(db.State()), k);
      && (err.None? <==> spec.Ok?)
      && (spec.Ok? ==> db.State() == spec.value)
      && (spec.Err? ==> err == Some(spec.error) && db.State() == old(db.State()))
  {
    if k !in db.ratings {
      return Some(NotFound);
    }
    db.details := map d | d in db.details && d.rating != k :: db.details[d];
    db.ratings := db.ratings - {k};
    return None;
  }

  // ----- Properties -----

  /**
   * The edit view fails exactly when the rating does not exist, the amount is missing,
   * or some submitted factor does not read as a decimal.
   */
  lemma EditSpecErrors(t: Tables, k: EventKey, form: EditForm, actor: nat)
    ensures EditSpec(t, k, form, actor) == Err(NotFound) <==> k !in t.ratings
    ensures EditSpec(t, k, form, actor) == Err(InvalidFactorValue)
        <==> k in t.ratings && form.monto.Some?
             && exists c :: c in t.concepts && Submitted(form.data, t.concepts[c].pk)
                            && FactorValue(form.data, t.concepts[c].pk).None?
  {
  }

  /**
   * A successful edit sets the amount, the state (kept when the form omits it) and the
   * editor of rating `k`, gives it a detail for a concept exactly when the form submitted
   * a value for it, and leaves every other row as it was.
   */
  lemma EditSpecEffect(t: Tables, k: EventKey, form: EditForm, actor: nat, c: int, d: DetailKey)
    requires EditSpec(t, k, form, actor).Ok?
    ensures var r := EditSpec(t, k, form, actor).value;
      && r.issuers == t.issuers && r.concepts == t.concepts && r.nextPk == t.nextPk && r.events == t.events
      && r.ratings.Keys == t.ratings.Keys
      && r.ratings[k].montoUnitarioPesos == form.monto.value
      && r.ratings[k].montoTotalDistribuido == t.ratings[k].montoTotalDistribuido
      && r.ratings[k].estado == (if form.estado.Some? then form.estado.value else t.ratings[k].estado)
      && r.ratings[k].modificadoPor == Some(actor)
      && (forall j :: j in t.ratings && j != k ==> r.ratings[j] == t.ratings[j])
      && (c in t.concepts ==>
            (DetailKey(k, c) in r.details <==> Submitted(form.data, t.concepts[c].pk))
            && (DetailKey(k, c) in r.details ==>
                  Some(r.details[DetailKey(k, c)]) == ParseDecimal(FactorField(form.data, t.concepts[c].pk).value)))
      && (d.rating != k ==> (d in r.details <==> d in t.details) && (d in r.details ==> r.details[d] == t.details[d]))
  {
    SyncedAt(t.details, k, t.concepts, form.data, t.concepts.Keys, DetailKey(k, c));
    SyncedAt(t.details, k, t.concepts, form.data, t.concepts.Keys, d);
  }

  lemma EditSpecValid(t: Tables, k: EventKey, form: EditForm, actor: nat)
    requires Valid(t) && EditSpec(t, k, form, actor).Ok?
    ensures Valid(EditSpec(t, k, form, actor).value)
  {
    var r := EditSpec(t, k, form, actor).value;
    forall d | d in r.details
      ensures d.rating in r.ratings && d.concepto in r.concepts
    {
      SyncedAt(t.details, k, t.concepts, form.data, t.concepts.Keys, d);
    }
  }

  /** Synchronising the details of rating `k` twice with the same data is doing it once. */
  lemma SyncedDetailsIdempotent(details: map<DetailKey, real>, k: EventKey, concepts: map<int, Concept>,
                                data: map<string, string>)
    ensures var once := SyncedDetails(details, k, concepts, data, concepts.Keys);
      SyncedDetails(once, k, concepts, data, concepts.Keys) == once
  {
    var once := SyncedDetails(details, k, concepts, data, concepts.Keys);
    var twice := SyncedDetails(once, k, concepts, data, concepts.Keys);
    forall d: DetailKey
      ensures (d in twice <==> d in once) && (d in twice ==> twice[d] == once[d])
    {
      SyncedAt(details, k, concepts, data, concepts.Keys, d);
      SyncedAt(once, k, concepts, data, concepts.Keys, d);
    }
    assert twice == once;
  }

  /** Submitting the same edit twice leaves the database as the first submission did. */
  lemma EditSpecIdempotent(t: Tables, k: EventKey, form: EditForm, actor: nat)
    requires EditSpec(t, k, form, actor).Ok?
    ensures EditSpec(EditSpec(t, k, form, actor).value, k, form, actor) == EditSpec(t, k, form, actor)
  {
    var r := EditSpec(t, k, form, actor).value;
    SyncedDetailsIdempotent(t.details, k, t.concepts, form.data);
    assert r.concepts == t.concepts;
    var r2 := EditSpec(r, k, form, actor).value;
    assert r2.ratings == r.ratings;
    assert r2.details == r.details;
  }

  /** Creating a rating for an event that already exists fails and changes nothing. */
  lemma CreateSpecDuplicate(t: Tables, form: CreateForm, actor: nat)
    requires form.emisor.Some? && form.emisor.value in t.issuers
    requires form.mercado.Some? && form.fechaPago.Some?
    requires form.numeroDividendo.Some? && form.numeroDividendo.value >= 0
    requires form.ejercicioComercial.Some? && form.ejercicioComercial.value >= 0
    requires EventKey(form.emisor.value, form.numeroDividendo.value, form.ejercicioComercial.value) in t.events
    ensures CreateSpec(t, form, actor) == Err(DuplicateEvent)
  {
  }

  /**
   * A successful create adds the event (sequence 0, no registration date, created by the
   * actor), its rating (total 0, created by the actor) and a detail for exactly the
   * submitted factors; nothing that existed changes.
   */
  lemma CreateSpecEffect(t: Tables, form: CreateForm, actor: nat, c: int, d: DetailKey)
    requires Valid(t) && CreateSpec(t, form, actor).Ok?
    ensures var (r, k) := CreateSpec(t, form, actor).value;
      && k == EventKey(form.emisor.value, form.numeroDividendo.value, form.ejercicioComercial.value)
      && k !in t.events && k !in t.ratings
      && r.issuers == t.issuers && r.concepts == t.concepts && r.nextPk == t.nextPk
      && r.events == t.events[k := Event(form.mercado.value, form.fechaPago.value, None, 0, Some(actor))]
      && r.ratings == t.ratings[k := Rating(0.0, form.monto.value, form.estado.value, Some(actor))]
      && (c in t.concepts ==>
            (DetailKey(k, c) in r.details <==> Submitted(form.data, t.concepts[c].pk))
            && (DetailKey(k, c) in r.details ==>
                  Some(r.details[DetailKey(k, c)]) == ParseDecimal(FactorField(form.data, t.concepts[c].pk).value)))
      && (d.rating != k ==> (d in r.details <==> d in t.details) && (d in r.details ==> r.details[d] == t.details[d]))
  {
    var (r, k) := CreateSpec(t, form, actor).value;
    if d.rating == k {
      assert d !in t.details;
    }
    if c in t.concepts {
      assert DetailKey(k, c) !in t.details;
    }
  }

  lemma CreateSpecValid(t: Tables, form: CreateForm, actor: nat)
    requires Valid(t) && CreateSpec(t, form, actor).Ok?
    ensures Valid(CreateSpec(t, form, actor).value.0)
  {
  }

  /** Deleting a rating keeps the event it belonged to. */
  lemma DeleteSpecKeepsEvent(t: Tables, k: EventKey)
    requires Valid(t)
    ensures DeleteSpec(t, k).Ok? <==> k in t.ratings
    ensures DeleteSpec(t, k).Ok? ==> var r := DeleteSpec(t, k).value;
      Valid(r) && k in r.events && r.events == t.events && k !in r.ratings
  {
    DeleteRatingValid(t, k);
  }

  // ----- Choice domains -----

  /**
   * The views do not check `estado` against its choices: an edit keeps every market and
   * state within its choices iff the submitted state, if any, is a state code.
   */
  lemma EditSpecChoices(t: Tables, k: EventKey, form: EditForm, actor: nat)
    requires ChoicesHold(t) && EditSpec(t, k, form, actor).Ok?
    ensures ChoicesHold(EditSpec(t, k, form, actor).value) <==> form.estado.None? || form.estado.value in StateCodes
  {
    var r := EditSpec(t, k, form, actor).value;
    assert r.ratings[k].estado == form.estado.GetOr(t.ratings[k].estado);
  }

  /** A create keeps the choice domains iff the submitted market and state are codes. */
  lemma CreateSpecChoices(t: Tables, form: CreateForm, actor: nat)
    requires ChoicesHold(t) && CreateSpec(t, form, actor).Ok?
    ensures ChoicesHold(CreateSpec(t, form, actor).value.0) <==>
      form.mercado.value in MarketCodes && form.estado.value in StateCodes
  {
    var (r, k) := CreateSpec(t, form, actor).value;
    var e := Event(form.mercado.value, form.fechaPago.value, None, 0, Some(actor));
    var rating := Rating(0.0, form.monto.value, form.estado.value, Some(actor));
    assert r == t.(events := t.events[k := e], ratings := t.ratings[k := rating], details := r.details);
    AddEventChoices(t, k, e, rating, r.details);
  }

  /** Adding an event with its rating keeps the choice domains iff both new values are codes. */
  lemma AddEventChoices(t: Tables, k: EventKey, e: Event, rating: Rating, details: map<DetailKey, real>)
    requires ChoicesHold(t)
    ensures ChoicesHold(t.(events := t.events[k := e], ratings := t.ratings[k := rating], details := details))
      <==> e.mercado in MarketCodes && rating.estado in StateCodes
  {
    var r := t.(events := t.events[k := e], ratings := t.ratings[k := rating], details := details);
    assert r.events[k] == e && r.ratings[k] == rating;
  }

  /** A delete removes rows only, so it keeps the choice domains. */
  lemma DeleteSpecChoices(t: Tables, k: EventKey)
    requires ChoicesHold(t) && DeleteSpec(t, k).Ok?
    ensures ChoicesHold(DeleteSpec(t, k).value)
  {
  }
}
