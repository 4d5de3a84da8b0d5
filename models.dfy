/**
 * The relational schema of the tax-rating app: issuers (Emisor), factor concepts
 * (ConceptoFactor), corporate events (EventoCorporativo), tax ratings
 * (CalificacionTributaria) and factor details (DetalleFactor).
 *
 * Each table is a map keyed by its uniqueness constraint, so those constraints hold by
 * construction; the remaining constraints (unique `rut`, unique concept pk, and the
 * foreign keys) make up `Valid`.
 */
module Models {
  import opened Common
  import opened Text

  // ----- Choice domains -----

  /** `TIPO_SOCIEDAD_CHOICES`: Abierta ('A') or Cerrada ('C'). */
  datatype CompanyType = Open | Closed {
    function Code(): string {
      match this
      case Open => "A"
      case Closed => "C"
    }
  }

  const DefaultCompanyType: CompanyType := Open

  /** The codes of `MERCADO_CHOICES` and of `ESTADO_CHOICES`, and the field defaults. */
  const MarketCodes: seq<string> := ["ACN", "CFI", "CFM"]
  const DefaultMarket: string := "ACN"
  const StateCodes: seq<string> := ["BORRADOR", "EN_REVISION", "VALIDADO", "RECHAZADO"]
  const Borrador: string := "BORRADOR"
  const DefaultState: string := Borrador
  const DefaultTipoDato: string := "Factor (8 decimales)"
  const DefaultYear: nat := 2024

  // ----- Rows of the tables -----

  /** An issuer; its `nemonico` is the key of the issuer table. */
  datatype Issuer = Issuer(rut: string, razonSocial: string, tipoSociedad: CompanyType)

  /** A factor concept; its `columna_dj` is the key of the concept table. */
  datatype Concept = Concept(pk: nat, descripcion: string, tipoDato: string)

  /** The natural key (emisor, numero_dividendo, ejercicio_comercial) of an event. */
  datatype EventKey = EventKey(emisor: string, numeroDividendo: nat, ejercicioComercial: nat)

  /** The non-key fields of an event. Dates are day numbers; users are ids. */
  datatype Event = Event(
    mercado: string,
    fechaPago: int,
    fechaRegistro: Option<int>,
    secuencia: nat,
    creadoPor: Option<nat>)

  /** A rating; it is keyed by the key of its (one) event. */
  datatype Rating = Rating(
    montoTotalDistribuido: real,
    montoUnitarioPesos: real,
    estado: string,
    modificadoPor: Option<nat>)

  /** The unique pair (calificacion, concepto) of a detail, by rating and concept column. */
  datatype DetailKey = DetailKey(rating: EventKey, concepto: int)

  /** The whole database. `nextPk` is the next primary key the concept table hands out. */
  datatype Tables = Tables(
    issuers: map<string, Issuer>,
    concepts: map<int, Concept>,
    nextPk: nat,
    events: map<EventKey, Event>,
    ratings: map<EventKey, Rating>,
    details: map<DetailKey, real>)

  const Empty: Tables := Tables(map[], map[], 1, map[], map[], map[])

  // ----- Constraints -----

  /** `rut` is unique among issuers. */
  ghost predicate RutUnique(t: Tables) {
    forall a, b :: a in t.issuers && b in t.issuers && a != b ==> t.issuers[a].rut != t.issuers[b].rut
  }

  /** Concept primary keys are distinct and below the next free one. */
  ghost predicate ConceptPksFresh(t: Tables) {
    && (forall c :: c in t.concepts ==> t.concepts[c].pk < t.nextPk)
    && (forall a, b :: a in t.concepts && b in t.concepts && a != b ==> t.concepts[a].pk != t.concepts[b].pk)
  }

  /** Every foreign key points at an existing row. */
  ghost predicate References(t: Tables) {
    && (forall k :: k in t.events ==> k.emisor in t.issuers)
    && (forall k :: k in t.ratings ==> k in t.events)
    && (forall d :: d in t.details ==> d.rating in t.ratings && d.concepto in t.concepts)
  }

  ghost predicate Valid(t: Tables) {
    RutUnique(t) && ConceptPksFresh(t) && References(t)
  }

  lemma EmptyValid()
    ensures Valid(Empty)
  {
  }

  /** A rut that no issuer uses yet. */
  predicate RutFree(t: Tables, rut: string) {
    forall n :: n in t.issuers ==> t.issuers[n].rut != rut
  }

  /**
   * Every stored market and rating state is one of its field's choices. Django does not
   * check `choices` on save, so this holds only as long as every writer respects it.
   */
  predicate ChoicesHold(t: Tables) {
    && (forall k :: k in t.events ==> t.events[k].mercado in MarketCodes)
    && (forall k :: k in t.ratings ==> t.ratings[k].estado in StateCodes)
  }

  lemma EmptyChoicesHold()
    ensures ChoicesHold(Empty)
  {
  }

  // ----- `__str__` formats -----

  /** `EventoCorporativo.__str__`: "<nemonico> - Div #<numero> (<ejercicio>)". */
  function EventLabel(k: EventKey): string {
    k.emisor + " - Div #" + NatToString(k.numeroDividendo) + " (" + NatToString(k.ejercicioComercial) + ")"
  }

  /** `CalificacionTributaria.__str__`. */
  function RatingLabel(k: EventKey): string {
    "Calificación " + EventLabel(k)
  }

  /** `ConceptoFactor.__str__`. */
  function ConceptLabel(columna: int, c: Concept): string {
    "Columna " + IntToString(columna) + ": " + c.descripcion
  }

  /**
   * Distinct events render distinctly: the fiscal year is the digits inside the last
   * parentheses, the dividend number the digits after the last '#', and the ticker what
   * precedes " - Div #".
   */
  lemma EventLabelInjective(k1: EventKey, k2: EventKey)
    requires EventLabel(k1) == EventLabel(k2)
    ensures k1 == k2
  {
    var n1, n2 := NatToString(k1.numeroDividendo), NatToString(k2.numeroDividendo);
    var y1, y2 := NatToString(k1.ejercicioComercial), NatToString(k2.ejercicioComercial);
    var a1, a2 := k1.emisor + " - Div #", k2.emisor + " - Div #";
    var b1, b2 := a1 + n1 + " (", a2 + n2 + " (";
    var l := EventLabel(k1);
    assert l == b1 + y1 + ")" && l == b2 + y2 + ")";
    assert b1 + y1 == l[..|l| - 1] == b2 + y2;
    assert b1[|b1| - 1] == '(' && b2[|b2| - 1] == '(';
    SplitDigitSuffix(b1, y1, b2, y2);
    assert a1 + n1 == b1[..|b1| - 2] && a2 + n2 == b2[..|b2| - 2];
    assert a1[|a1| - 1] == '#' && a2[|a2| - 1] == '#';
    SplitDigitSuffix(a1, n1, a2, n2);
    assert k1.emisor == a1[..|a1| - 8] && k2.emisor == a2[..|a2| - 8];
    DigitsValueOfNatToString(k1.numeroDividendo);
    DigitsValueOfNatToString(k2.numeroDividendo);
    DigitsValueOfNatToString(k1.ejercicioComercial);
    DigitsValueOfNatToString(k2.ejercicioComercial);
  }

  /** Rating labels prefix event labels, so they are injective as well. */
  lemma RatingLabelInjective(k1: EventKey, k2: EventKey)
    requires RatingLabel(k1) == RatingLabel(k2)
    ensures k1 == k2
  {
    var p := "Calificación ";
    assert EventLabel(k1) == RatingLabel(k1)[|p|..];
    assert EventLabel(k2) == RatingLabel(k2)[|p|..];
    EventLabelInjective(k1, k2);
  }

  // ----- Deletion: CASCADE and PROTECT -----

  datatype DeleteError = ProtectedError

  /** Deleting a rating cascades to its details (`on_delete=CASCADE`). */
  function DeleteRating(t: Tables, k: EventKey): (r: Tables)
    ensures k !in r.ratings
    ensures forall d :: d in r.details ==> d.rating != k
  {
    t.(ratings := t.ratings - {k},
       details := map d | d in t.details && d.rating != k :: t.details[d])
  }

  /** Deleting an event cascades to its rating, and from there to the details. */
  function DeleteEvent(t: Tables, k: EventKey): Tables {
    DeleteRating(t, k).(events := t.events - {k})
  }

  /** An issuer referenced by an event cannot be deleted (`on_delete=PROTECT`). */
  function DeleteIssuer(t: Tables, nemonico: string): Result<Tables, DeleteError> {
    if exists k :: k in t.events && k.emisor == nemonico then Err(ProtectedError)
    else Ok(t.(issuers := t.issuers - {nemonico}))
  }

  /** A concept referenced by a detail cannot be deleted (`on_delete=PROTECT`). */
  function DeleteConcept(t: Tables, columna: int): Result<Tables, DeleteError> {
    if exists d :: d in t.details && d.concepto == columna then Err(ProtectedError)
    else Ok(t.(concepts := t.concepts - {columna}))
  }

  /** Deleting a rating removes exactly its own details and nothing else. */
  lemma DeleteRatingExact(t: Tables, k: EventKey)
    ensures var r := DeleteRating(t, k);
      && r.issuers == t.issuers && r.concepts == t.concepts && r.events == t.events
      && (forall j :: j in r.ratings <==> j in t.ratings && j != k)
      && (forall d :: d in r.details <==> d in t.details && d.rating != k)
      && (forall d :: d in r.details ==> r.details[d] == t.details[d])
  {
  }

  lemma DeleteRatingValid(t: Tables, k: EventKey)
    requires Valid(t)
    ensures Valid(DeleteRating(t, k))
  {
  }

  /** Deleting an event removes the event, its rating and that rating's details. */
  lemma DeleteEventValid(t: Tables, k: EventKey)
    requires Valid(t)
    ensures var r := DeleteEvent(t, k);
      Valid(r) && k !in r.events && k !in r.ratings && (forall d :: d in r.details ==> d.rating != k)
  {
  }

  /** PROTECT is what keeps the references intact: a permitted delete stays valid. */
  lemma DeleteIssuerValid(t: Tables, nemonico: string)
    requires Valid(t)
    ensures DeleteIssuer(t, nemonico).Ok? <==> forall k :: k in t.events ==> k.emisor != nemonico
    ensures DeleteIssuer(t, nemonico).Ok? ==> Valid(DeleteIssuer(t, nemonico).value)
  {
  }

  lemma DeleteConceptValid(t: Tables, columna: int)
    requires Valid(t)
    ensures DeleteConcept(t, columna).Ok? <==> forall d :: d in t.details ==> d.concepto != columna
    ensures DeleteConcept(t, columna).Ok? ==> Valid(DeleteConcept(t, columna).value)
  {
  }

  /** Without PROTECT, dropping a referenced issuer would break the event's reference. */
  lemma UnprotectedIssuerDeleteBreaksReferences(t: Tables, k: EventKey)
    requires Valid(t) && k in t.events
    ensures !References(t.(issuers := t.issuers - {k.emisor}))
  {
  }
}
