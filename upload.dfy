/**
 * `upload_file_view`: bulk ingestion of an already-parsed spreadsheet (a header list and
 * rows mapping headers to cells). Rows are processed in order; the first failing row
 * raises, and because the loop runs inside `transaction.atomic` nothing of the batch
 * survives. `UploadSpec` is the specification; `UploadFile` changes a `Store.Database`
 * step by step and is proved against it.
 */
module Upload {
  import opened Common
  import opened Text
  import opened Models
  import Store

  /** A spreadsheet cell as the reader delivers it: empty (NaN), a number, text, or a date. */
  datatype Cell = Blank | Number(num: real) | Chars(text: string) | Date(day: int)

  type Row = map<string, Cell>

  datatype Sheet = Sheet(headers: seq<string>, rows: seq<Row>)

  datatype UploadError =
    | NotAnXlsxFile
    | MissingColumn(column: string)
    | CreditSumExceeded(rowNumber: nat, sum: real)
    | BadValue(rowNumber: nat, column: string)
    | DuplicateRut(rowNumber: nat, rut: string)

  const RequiredColumns: seq<string> := ["Instrumento", "Numero de dividendo", "Ejercicio", "Fecha"]

  /** The credit factors are columns 8 to 19; their sum may exceed 1 by at most 1e-6. */
  const FirstCreditFactor: nat := 8
  const LastCreditFactor: nat := 19
  const CreditTolerance: real := 1.000001

  // ----- Reading a row -----

  /** `row[h]`: a header that a row does not mention reads as an empty cell. */
  function CellAt(row: Row, h: string): Cell {
    if h in row then row[h] else Blank
  }

  /** `row.get(h, default)`: `None` when the sheet has no such column. */
  function Lookup(headers: seq<string>, row: Row, h: string): Option<Cell> {
    if h in headers then Some(CellAt(row, h)) else None
  }

  /** The first required column that the headers lack, in the order they are checked. */
  function FirstMissing(headers: seq<string>, required: seq<string>): (r: Option<string>)
    ensures r.None? <==> forall c :: c in required ==> c in headers
    ensures r.Some? ==> r.value in required && r.value !in headers
    ensures r.Some? ==> exists j :: 0 <= j < |required| && required[j] == r.value &&
                          forall i :: 0 <= i < j ==> required[i] in headers
  {
    if required == [] then None
    else if required[0] !in headers then Some(required[0])
    else
      var r := FirstMissing(headers, required[1..]);
      assert forall c :: c in required[1..] ==> c in required;
      if r.Some? then
        var j :| 0 <= j < |required[1..]| && required[1..][j] == r.value &&
                 forall i :: 0 <= i < j ==> required[1..][i] in headers;
        assert required[j + 1] == r.value && forall i :: 0 <= i < j + 1 ==> required[i] in headers;
        r
      else r
  }

  /** The file must be there and its name must end in ".xlsx", in any case. */
  predicate AcceptsFileName(name: Option<string>) {
    name.Some? && EndsWith(LowerStr(name.value), ".xlsx")
  }

  function FactorColumn(i: int): string {
    "Factor " + IntToString(i)
  }

  /** The concept number of a "Factor N" header: `int(col_name.split(' ')[1])`. */
  function FactorNumber(h: string): Option<int> {
    if StartsWith(h, "Factor ") then ParseInt(TakeUntilSpace(h[7..])) else None
  }

  /** The headers the credit check reads are exactly the ones the factor loop parses. */
  lemma FactorNumberOfFactorColumn(i: int)
    ensures FactorNumber(FactorColumn(i)) == Some(i)
  {
    var h := FactorColumn(i);
    var d := IntToString(i);
    assert h[..7] == "Factor ";
    assert h[7..] == d;
    assert ' ' !in d by {
      if i < 0 { assert d == "-" + NatToString(-i); }
    }
    assert IndexOf(d, ' ') == |d|;
    assert TakeUntilSpace(d) == d;
    ParseIntOfIntToString(i);
  }

  /** Two different numbers name two different columns. */
  lemma FactorColumnInjective(i: int, j: int)
    requires i != j
    ensures FactorColumn(i) != FactorColumn(j)
  {
    FactorNumberOfFactorColumn(i);
    FactorNumberOfFactorColumn(j);
  }

  // ----- The credit-factor check -----

  /**
   * `pd.to_numeric(cell, errors='coerce') or 0` with the evident intent of the `or 0`:
   * a numeric cell counts with its value, anything else counts 0.
   */
  function Coerced(c: Cell): real {
    if c.Number? then c.num else 0.0
  }

  function CreditSumFrom(headers: seq<string>, row: Row, i: nat): real
    decreases LastCreditFactor + 1 - i
  {
    if i > LastCreditFactor then 0.0
    else
      (if FactorColumn(i) in headers then Coerced(CellAt(row, FactorColumn(i))) else 0.0)
      + CreditSumFrom(headers, row, i + 1)
  }

  /** `suma_factores_credito`: the sum over the columns "Factor 8" .. "Factor 19" present. */
  function CreditSum(headers: seq<string>, row: Row): real {
    CreditSumFrom(headers, row, FirstCreditFactor)
  }

  /** The loop of the source that accumulates `suma_factores_credito`. */
  method ComputeCreditSum(headers: seq<string>, row: Row) returns (s: real)
    ensures s == CreditSum(headers, row)
  {
    s := 0.0;
    var i := FirstCreditFactor;
    while i <= LastCreditFactor
      invariant FirstCreditFactor <= i <= LastCreditFactor + 1
      invariant s + CreditSumFrom(headers, row, i) == CreditSum(headers, row)
    {
      var col := FactorColumn(i);
      if col in headers {
        s := s + Coerced(CellAt(row, col));
      }
      i := i + 1;
    }
  }

  /** Columns the sheet does not have contribute nothing: only the cells present count. */
  lemma {:induction false} CreditSumOnlyPresentColumns(headers: seq<string>, row1: Row, row2: Row, i: nat)
    requires forall j :: i <= j <= LastCreditFactor && FactorColumn(j) in headers ==>
               Coerced(CellAt(row1, FactorColumn(j))) == Coerced(CellAt(row2, FactorColumn(j)))
    ensures CreditSumFrom(headers, row1, i) == CreditSumFrom(headers, row2, i)
    decreases LastCreditFactor + 1 - i
  {
    if i <= LastCreditFactor {
      CreditSumOnlyPresentColumns(headers, row1, row2, i + 1);
    }
  }

  /** A row whose credit cells are all empty or absent sums to zero. */
  lemma {:induction false} CreditSumOfBlankRow(headers: seq<string>, i: nat)
    ensures CreditSumFrom(headers, map[], i) == 0.0
    decreases LastCreditFactor + 1 - i
  {
    if i <= LastCreditFactor {
      CreditSumOfBlankRow(headers, i + 1);
    }
  }

  // ----- The source's coercion as written (see the findings in README.md) -----

  /** `pd.to_numeric(cell, errors='coerce') or 0` as Python evaluates it: `None` is NaN. */
  function CoercedAsWritten(c: Cell): Option<real> {
    if c.Number? then Some(c.num) else None
  }

  /** The sum with NaN propagation: `None` once any present credit cell is not numeric. */
  function CreditSumAsWrittenFrom(headers: seq<string>, row: Row, i: nat): Option<real>
    decreases LastCreditFactor + 1 - i
  {
    if i > LastCreditFactor then Some(0.0)
    else
      var rest := CreditSumAsWrittenFrom(headers, row, i + 1);
      if FactorColumn(i) !in headers then rest
      else match (CoercedAsWritten(CellAt(row, FactorColumn(i))), rest)
        case (Some(v), Some(r)) => Some(v + r)
        case _ => None
  }

  /** `suma_factores_credito > 1.000001` as written: a comparison with NaN is false. */
  predicate ExceedsAsWritten(headers: seq<string>, row: Row) {
    var s := CreditSumAsWrittenFrom(headers, row, FirstCreditFactor);
    s.Some? && s.value > CreditTolerance
  }

  /** As written, one empty credit cell hides a sum of 1.2 from the check. */
  lemma BlankCreditCellHidesExcess()
    ensures var headers := ["Factor 8", "Factor 9", "Factor 10"];
      var row := map["Factor 8" := Number(0.7), "Factor 9" := Number(0.5), "Factor 10" := Blank];
      !ExceedsAsWritten(headers, row) && CreditSum(headers, row) == 1.2 > CreditTolerance
  {
    var headers := ["Factor 8", "Factor 9", "Factor 10"];
    var row := map["Factor 8" := Number(0.7), "Factor 9" := Number(0.5), "Factor 10" := Blank];
    assert FactorColumn(8) == "Factor 8" && FactorColumn(9) == "Factor 9" && FactorColumn(10) == "Factor 10";
    forall j | 11 <= j <= LastCreditFactor
      ensures FactorColumn(j) !in headers
    {
      FactorColumnInjective(j, 8);
      FactorColumnInjective(j, 9);
      FactorColumnInjective(j, 10);
    }
    CreditSumOfAbsentTail(headers, row, 11);
    CreditSumAsWrittenOfAbsentTail(headers, row, 11);
  }

  lemma {:induction false} CreditSumOfAbsentTail(headers: seq<string>, row: Row, i: nat)
    requires forall j :: i <= j <= LastCreditFactor ==> FactorColumn(j) !in headers
    ensures CreditSumFrom(headers, row, i) == 0.0
    decreases LastCreditFactor + 1 - i
  {
    if i <= LastCreditFactor {
      CreditSumOfAbsentTail(headers, row, i + 1);
    }
  }

  lemma {:induction false} CreditSumAsWrittenOfAbsentTail(headers: seq<string>, row: Row, i: nat)
    requires forall j :: i <= j <= LastCreditFactor ==> FactorColumn(j) !in headers
    ensures CreditSumAsWrittenFrom(headers, row, i) == Some(0.0)
    decreases LastCreditFactor + 1 - i
  {
    if i <= LastCreditFactor {
      CreditSumAsWrittenOfAbsentTail(headers, row, i + 1);
    }
  }

  /** With every present credit cell numeric, the corrected sum and the source's agree. */
  lemma {:induction false} CorrectedAgreesOnNumericCells(headers: seq<string>, row: Row, i: nat)
    requires forall j :: i <= j <= LastCreditFactor && FactorColumn(j) in headers ==>
               CellAt(row, FactorColumn(j)).Number?
    ensures CreditSumAsWrittenFrom(headers, row, i) == Some(CreditSumFrom(headers, row, i))
    decreases LastCreditFactor + 1 - i
  {
    if i <= LastCreditFactor {
      CorrectedAgreesOnNumericCells(headers, row, i + 1);
      var col := FactorColumn(i);
      if col in headers {
        var c := CellAt(row, col);
        assert c.Number?;
        assert CreditSumAsWrittenFrom(headers, row, i) == Some(c.num + CreditSumFrom(headers, row, i + 1));
      } else {
        assert CreditSumAsWrittenFrom(headers, row, i) == CreditSumAsWrittenFrom(headers, row, i + 1);
      }
    }
  }

  // ----- Converting cells into field values (what Django does on lookup and save) -----

  /** A CharField value: `str(cell)`; an empty cell is the float NaN, which prints "nan". */
  function CharValue(c: Cell): Option<string> {
    match c
    case Blank => Some("nan")
    case Chars(s) => Some(s)
    case _ => None
  }

  /** Python's `int()` on a float truncates toward zero. */
  function Trunc(r: real): int {
    if r >= 0.0 then r.Floor else -((-r).Floor)
  }

  /** A PositiveIntegerField value: `int(cell)`, which must not be negative. */
  function PositiveIntValue(c: Cell): Option<nat> {
    if c.Number? && Trunc(c.num) >= 0 then Some(Trunc(c.num)) else None
  }

  function DateValue(c: Cell): Option<int> {
    if c.Date? then Some(c.day) else None
  }

  function DecimalValue(c: Cell): Option<real> {
    if c.Number? then Some(c.num) else None
  }

  /** `str(row.get('Tipo sociedad', 'A'))`; `None` for a number or a date, whose text is digits. */
  function TipoSociedadText(c: Option<Cell>): Option<string> {
    match c
    case None => Some("A")
    case Some(Blank) => Some("nan")
    case Some(Chars(s)) => Some(s)
    case Some(_) => None
  }

  /** 'C' when the upper-cased text contains 'CERRADA' or is 'C'; otherwise 'A'. */
  function InferCompanyType(c: Option<Cell>): CompanyType {
    match TipoSociedadText(c)
    case None => Open
    case Some(s) =>
      var u := UpperStr(s);
      if Contains(u, "CERRADA") || u == "C" then Closed else Open
  }

  /** `row.get('RUT', f"SIN-RUT-{index}")`. */
  function RutFor(headers: seq<string>, row: Row, index: nat): Option<string> {
    match Lookup(headers, row, "RUT")
    case None => Some("SIN-RUT-" + NatToString(index))
    case Some(c) => CharValue(c)
  }

  /** `row.get('Monto Unitario', 0)`. */
  function RowAmount(headers: seq<string>, row: Row): Option<real> {
    match Lookup(headers, row, "Monto Unitario")
    case None => Some(0.0)
    case Some(c) => DecimalValue(c)
  }

  /** `pd.notna(valor) and valor != ''` fails. */
  predicate IsBlankCell(c: Cell) {
    c.Blank? || c == Chars("")
  }

  // ----- One row -----

  /** `Emisor.objects.get_or_create(nemonico=...)`; a new issuer needs a rut nobody has. */
  function ResolveIssuer(t: Tables, headers: seq<string>, row: Row, index: nat): Result<(Tables, string), UploadError> {
    match CharValue(CellAt(row, "Instrumento"))
    case None => Err(BadValue(index + 2, "Instrumento"))
    case Some(nem) =>
      if nem in t.issuers then Ok((t, nem))
      else match RutFor(headers, row, index)
        case None => Err(BadValue(index + 2, "RUT"))
        case Some(rut) =>
          if !RutFree(t, rut) then Err(DuplicateRut(index + 2, rut))
          else
            var tipo := InferCompanyType(Lookup(headers, row, "Tipo sociedad"));
            Ok((t.(issuers := t.issuers[nem := Issuer(rut, nem, tipo)]), nem))
  }

  /** The event fields that get_or_create's `defaults` gives a new event. */
  function NewEvent(headers: seq<string>, row: Row, actor: nat): Result<Event, string> {
    var mercado := match Lookup(headers, row, "Mercado") case None => Some(DefaultMarket) case Some(c) => CharValue(c);
    var fecha := DateValue(CellAt(row, "Fecha"));
    var secuencia := match Lookup(headers, row, "Secuencia") case None => Some(0) case Some(c) => PositiveIntValue(c);
    if mercado.None? then Err("Mercado")
    else if fecha.None? then Err("Fecha")
    else if secuencia.None? then Err("Secuencia")
    else Ok(Event(mercado.value, fecha.value, None, secuencia.value, Some(actor)))
  }

  /** The natural key of the row's event. */
  function RowKey(row: Row, nem: string, rowNumber: nat): Result<EventKey, UploadError> {
    var div := PositiveIntValue(CellAt(row, "Numero de dividendo"));
    var year := PositiveIntValue(CellAt(row, "Ejercicio"));
    if div.None? then Err(BadValue(rowNumber, "Numero de dividendo"))
    else if year.None? then Err(BadValue(rowNumber, "Ejercicio"))
    else Ok(EventKey(nem, div.value, year.value))
  }

  /**
   * `EventoCorporativo.objects.get_or_create` on the natural key: an existing event is
   * reused as it is; the flag says whether the event was created.
   */
  function ResolveEvent(t: Tables, headers: seq<string>, row: Row, rowNumber: nat, k: EventKey, actor: nat)
    : Result<(Tables, bool), UploadError>
  {
    if k in t.events then Ok((t, false))
    else match NewEvent(headers, row, actor)
      case Err(col) => Err(BadValue(rowNumber, col))
      case Ok(e) => Ok((t.(events := t.events[k := e]), true))
  }

  /** `update_or_create` of the event's rating, forced to BORRADOR. */
  function UpsertRating(t: Tables, k: EventKey, monto: real, actor: nat): Tables {
    var r := if k in t.ratings
      then t.ratings[k].(montoUnitarioPesos := monto, estado := Borrador, modificadoPor := Some(actor))
      else Rating(0.0, monto, Borrador, Some(actor));
    t.(ratings := t.ratings[k := r])
  }

  /** `ConceptoFactor.objects.get_or_create(columna_dj=n)`, with a fresh primary key. */
  function EnsureConcept(t: Tables, n: int): Tables {
    if n in t.concepts then t
    else t.(concepts := t.concepts[n := Concept(t.nextPk, "Factor Columna " + IntToString(n), DefaultTipoDato)],
            nextPk := t.nextPk + 1)
  }

  /** The loop over the headers from position `j` that upserts one detail per "Factor N" cell. */
  function StoreFactors(t: Tables, headers: seq<string>, row: Row, rowNumber: nat, k: EventKey, j: nat)
    : Result<Tables, UploadError>
    requires j <= |headers|
    decreases |headers| - j
  {
    if j == |headers| then Ok(t)
    else
      var h := headers[j];
      var n := FactorNumber(h);
      var c := CellAt(row, h);
      if n.None? || IsBlankCell(c) then StoreFactors(t, headers, row, rowNumber, k, j + 1)
      else match DecimalValue(c)
        case None => Err(BadValue(rowNumber, h))
        case Some(v) =>
          var t1 := EnsureConcept(t, n.value);
          StoreFactors(t1.(details := t1.details[DetailKey(k, n.value) := v]), headers, row, rowNumber, k, j + 1)
  }

  /** The body of the row loop; the flag says whether the row created its event. */
  function IngestRow(t: Tables, headers: seq<string>, row: Row, index: nat, actor: nat): Result<(Tables, bool), UploadError> {
    var sum := CreditSum(headers, row);
    if sum > CreditTolerance then Err(CreditSumExceeded(index + 2, sum))
    else match ResolveIssuer(t, headers, row, index)
      case Err(e) => Err(e)
      case Ok((t1, nem)) =>
        match RowKey(row, nem, index + 2)
        case Err(e) => Err(e)
        case Ok(k) =>
          match ResolveEvent(t1, headers, row, index + 2, k, actor)
          case Err(e) => Err(e)
          case Ok((t2, created)) =>
            match RowAmount(headers, row)
            case None => Err(BadValue(index + 2, "Monto Unitario"))
            case Some(m) =>
              match StoreFactors(UpsertRating(t2, k, m, actor), headers, row, index + 2, k, 0)
              case Err(e) => Err(e)
              case Ok(t3) => Ok((t3, created))
  }

  /** The row loop from row `i` on, with `created` events counted so far. */
  function IngestFrom(t: Tables, sheet: Sheet, i: nat, created: nat, actor: nat): Result<(Tables, nat), UploadError>
    requires i <= |sheet.rows|
    decreases |sheet.rows| - i
  {
    if i == |sheet.rows| then Ok((t, created))
    else match IngestRow(t, sheet.headers, sheet.rows[i], i, actor)
      case Err(e) => Err(e)
      case Ok((t1, c)) => IngestFrom(t1, sheet, i + 1, if c then created + 1 else created, actor)
  }

  /** The whole view: the new database and `registros_creados`, or the error that aborted it. */
  function UploadSpec(t: Tables, fileName: Option<string>, sheet: Sheet, actor: nat): Result<(Tables, nat), UploadError> {
    if !AcceptsFileName(fileName) then Err(NotAnXlsxFile)
    else match FirstMissing(sheet.headers, RequiredColumns)
      case Some(col) => Err(MissingColumn(col))
      case None => IngestFrom(t, sheet, 0, 0, actor)
  }

  // ----- The view, step by step on the database -----

  /** The loop over the headers that stores the row's factor cells. */
  method StoreFactorsStep(db: Store.Database, headers: seq<string>, row: Row, rowNumber: nat, k: EventKey)
    returns (err: Option<UploadError>)
    modifies db
    ensures var spec := StoreFactors(old(db.State()), headers, row, rowNumber, k, 0);
      && (err.None? <==> spec.Ok?)
      && (spec.Ok? ==> db.State() == spec.value)
      && (spec.Err? ==> err == Some(spec.error))
  {
    var j := 0;
    while j < |headers|
      invariant 0 <= j <= |headers|
      invariant StoreFactors(db.State(), headers, row, rowNumber, k, j)
             == StoreFactors(old(db.State()), headers, row, rowNumber, k, 0)
    {
      ghost var s := db.State();
      var h := headers[j];
      var n := FactorNumber(h);
      var c := CellAt(row, h);
      if n.Some? && !IsBlankCell(c) {
        var v := DecimalValue(c);
        if v.None? {
          assert StoreFactors(s, headers, row, rowNumber, k, j) == Err(BadValue(rowNumber, h));
          return Some(BadValue(rowNumber, h));
        }
        if n.value !in db.concepts {
          db.concepts := db.concepts[n.value := Concept(db.nextPk, "Factor Columna " + IntToString(n.value), DefaultTipoDato)];
          db.nextPk := db.nextPk + 1;
        }
        assert db.State() == EnsureConcept(s, n.value);
        db.details := db.details[DetailKey(k, n.value) := v.value];
        assert StoreFactors(s, headers, row, rowNumber, k, j) == StoreFactors(db.State(), headers, row, rowNumber, k, j + 1);
      } else {
        assert StoreFactors(s, headers, row, rowNumber, k, j) == StoreFactors(s, headers, row, rowNumber, k, j + 1);
      }
      j := j + 1;
    }
    return None;
  }

  /** One iteration of the row loop. On an error the caller rolls the batch back. */
  method IngestRowStep(db: Store.Database, headers: seq<string>, row: Row, index: nat, actor: nat)
    returns (r: Result<bool, UploadError>)
    modifies db
    ensures var spec := IngestRow(old(db.State()), headers, row, index, actor);
      && (r.Ok? <==> spec.Ok?)
      && (spec.Ok? ==> r.value == spec.value.1 && db.State() == spec.value.0)
      && (spec.Err? ==> r.error == spec.error)
  {
    ghost var t0 := db.State();
    var rowNumber := index + 2;
    var sum := ComputeCreditSum(headers, row);
    if sum > CreditTolerance {
      return Err(CreditSumExceeded(rowNumber, sum));
    }
    var nem := CharValue(CellAt(row, "Instrumento"));
    if nem.None? {
      return Err(BadValue(rowNumber, "Instrumento"));
    }
    if nem.value !in db.issuers {
      var rut := RutFor(headers, row, index);
      if rut.None? {
        return Err(BadValue(rowNumber, "RUT"));
      }
      if !RutFree(db.State(), rut.value) {
        return Err(DuplicateRut(rowNumber, rut.value));
      }
      var tipo := InferCompanyType(Lookup(headers, row, "Tipo sociedad"));
      db.issuers := db.issuers[nem.value := Issuer(rut.value, nem.value, tipo)];
    }
    assert ResolveIssuer(t0, headers, row, index) == Ok((db.State(), nem.value));
    ghost var t1 := db.State();
    var key := RowKey(row, nem.value, rowNumber);
    if key.Err? {
      return Err(key.error);
    }
    var k := key.value;
    var created := k !in db.events;
    if created {
      var e := NewEvent(headers, row, actor);
      if e.Err? {
        return Err(BadValue(rowNumber, e.error));
      }
      db.events := db.events[k := e.value];
    }
    assert ResolveEvent(t1, headers, row, rowNumber, k, actor) == Ok((db.State(), created));
    var monto := RowAmount(headers, row);
    if monto.None? {
      return Err(BadValue(rowNumber, "Monto Unitario"));
    }
    ghost var t2 := db.State();
    if k in db.ratings {
      db.ratings := db.ratings[k := db.ratings[k].(montoUnitarioPesos := monto.value, estado := Borrador,
                                                 modificadoPor := Some(actor))];
    } else {
      db.ratings := db.ratings[k := Rating(0.0, monto.value, Borrador, Some(actor))];
    }
    assert db.State() == UpsertRating(t2, k, monto.value, actor);
    var err := StoreFactorsStep(db, headers, row, rowNumber, k);
    if err.Some? {
      return Err(err.value);
    }
    return Ok(created);
  }

  /**
   * `upload_file_view` on a POST: the file-name check, the required-column check, then
   * the row loop inside `transaction.atomic`. Any error leaves the database as it was.
   */
  method UploadFile(db: Store.Database, fileName: Option<string>, sheet: Sheet, actor: nat)
    returns (r: Result<nat, UploadError>)
    modifies db
    ensures var spec := UploadSpec(old(db.State()), fileName, sheet, actor);
      && (r.Ok? <==> spec.Ok?)
      && (spec.Ok? ==> r.value == spec.value.1 && db.State() == spec.value.0)
      && (spec.Err? ==> r.error == spec.error && db.State() == old(db.State()))
  {
    if !AcceptsFileName(fileName) {
      return Err(NotAnXlsxFile);
    }
    var c := 0;
    while c < |RequiredColumns|
      invariant 0 <= c <= |RequiredColumns|
      invariant forall i :: 0 <= i < c ==> RequiredColumns[i] in sheet.headers
    {
      if RequiredColumns[c] !in sheet.headers {
        var m := FirstMissing(sheet.headers, RequiredColumns);
        assert m.Some?;
        var j :| 0 <= j < |RequiredColumns| && RequiredColumns[j] == m.value &&
                 forall i :: 0 <= i < j ==> RequiredColumns[i] in sheet.headers;
        assert j == c;
        return Err(MissingColumn(RequiredColumns[c]));
      }
      c := c + 1;
    }
    var saved := db.State();
    var created := 0;
    var i := 0;
    while i < |sheet.rows|
      invariant 0 <= i <= |sheet.rows|
      invariant IngestFrom(db.State(), sheet, i, created, actor) == IngestFrom(saved, sheet, 0, 0, actor)
    {
      var outcome := IngestRowStep(db, sheet.headers, sheet.rows[i], i, actor);
      if outcome.Err? {
        db.Restore(saved);
        return Err(outcome.error);
      }
      if outcome.value {
        created := created + 1;
      }
      i := i + 1;
    }
    return Ok(created);
  }
}
