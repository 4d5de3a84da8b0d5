/**
 * The two read-only listings of ratings: the maintenance page (`mantenedor_view`) with
 * its optional market / instrument / period filters, and the REST endpoint
 * (`CalificacionViewSet.get_queryset`), ordered by payment date, newest first, with
 * optional ticker / year filters. A query set is a sequence of rows; a filter keeps the
 * rows that match, in order.
 */
module Listing {
  import opened Common
  import opened Text
  import opened Models

  /** One rating as the listings see it: its event's key and the event fields filtered on. */
  datatype RatingRow = RatingRow(key: EventKey, mercado: string, fechaPago: int)

  /** The row of the rating of event `k`, joined with its event (`select_related('evento')`). */
  function RowFor(t: Tables, k: EventKey): RatingRow
    requires k in t.events
  {
    RatingRow(k, t.events[k].mercado, t.events[k].fechaPago)
  }

  /**
   * `rows` is the rating query set of `t` in some order: one row per rating, each joined
   * with its event, and nothing else.
   */
  ghost predicate RowsOf(t: Tables, rows: seq<RatingRow>) {
    && (forall i :: 0 <= i < |rows| ==> rows[i].key in t.ratings && rows[i].key in t.events && rows[i] == RowFor(t, rows[i].key))
    && (forall x :: multiset(rows)[x] <= 1)
    && (forall k :: k in t.ratings ==> k in t.events && RowFor(t, k) in rows)
  }

  /** A filter on an integer field given text that does not read as an integer. */
  datatype ListError = NotANumber(parameter: string)

  /** `queryset.filter(...)`: the rows satisfying `f`, in their original order. */
  function Keep(rows: seq<RatingRow>, f: RatingRow -> bool): (r: seq<RatingRow>)
    ensures |r| <= |rows|
    ensures forall x :: x in r <==> x in rows && f(x)
    ensures forall x :: multiset(r)[x] == if f(x) then multiset(rows)[x] else 0
  {
    if rows == [] then []
    else
      assert rows == [rows[0]] + rows[1..];
      if f(rows[0]) then [rows[0]] + Keep(rows[1..], f)
      else Keep(rows[1..], f)
  }

  /** `evento__mercado=m`. */
  predicate MarketIs(x: RatingRow, m: string) {
    x.mercado == m
  }

  /** `evento__emisor__nemonico__icontains=q`. */
  predicate TickerContains(x: RatingRow, q: string) {
    ContainsIgnoreCase(x.key.emisor, q)
  }

  /** `evento__ejercicio_comercial=y`. */
  predicate YearIs(x: RatingRow, y: int) {
    x.key.ejercicioComercial == y
  }

  /**
   * The integer an integer-field lookup compares with: Django converts the query text
   * with `int()` and raises when it does not read as one.
   */
  function QueryInt(parameter: string, text: string): (r: Result<int, ListError>)
    ensures r.Ok? <==> ParseInt(text).Some?
    ensures r.Err? ==> r.error == NotANumber(parameter)
  {
    match ParseInt(text)
    case Some(n) => Ok(n)
    case None => Err(NotANumber(parameter))
  }

  // ----- The maintenance page -----

  /** `mantenedor_view`: each non-empty GET parameter narrows the list in turn. */
  function MaintenanceList(base: seq<RatingRow>, mercado: string, instrumento: string, periodo: string)
    : Result<seq<RatingRow>, ListError>
  {
    var a := if mercado != "" then Keep(base, x => MarketIs(x, mercado)) else base;
    var b := if instrumento != "" then Keep(a, x => TickerContains(x, instrumento)) else a;
    if periodo == "" then Ok(b)
    else match QueryInt("periodo", periodo)
      case Ok(y) => Ok(Keep(b, x => YearIs(x, y)))
      case Err(e) => Err(e)
  }

  /** The year the `periodo` parameter asks for; `None` when it is empty. */
  function MaintenanceYear(periodo: string): Option<int> {
    if periodo == "" then None else ParseInt(periodo)
  }

  /** A row the maintenance page shows: it passes each filter whose parameter is non-empty. */
  predicate MaintenanceMatches(x: RatingRow, mercado: string, instrumento: string, year: Option<int>) {
    && (mercado != "" ==> MarketIs(x, mercado))
    && (instrumento != "" ==> TickerContains(x, instrumento))
    && (year.Some? ==> YearIs(x, year.value))
  }

  /** Filtering twice is filtering once with both conditions. */
  lemma {:induction false} KeepKeep(rows: seq<RatingRow>, f: RatingRow -> bool, g: RatingRow -> bool)
    ensures Keep(Keep(rows, f), g) == Keep(rows, x => f(x) && g(x))
  {
    if rows != [] {
      KeepKeep(rows[1..], f, g);
      if f(rows[0]) {
        assert Keep(rows, f) == [rows[0]] + Keep(rows[1..], f);
        assert Keep(rows, f)[1..] == Keep(rows[1..], f);
      }
    }
  }

  /** Two conditions that agree on every row keep the same rows. */
  lemma {:induction false} KeepSame(rows: seq<RatingRow>, f: RatingRow -> bool, g: RatingRow -> bool)
    requires forall x :: f(x) == g(x)
    ensures Keep(rows, f) == Keep(rows, g)
  {
    if rows != [] {
      KeepSame(rows[1..], f, g);
    }
  }

  lemma KeepAll(rows: seq<RatingRow>, f: RatingRow -> bool)
    requires forall x :: f(x)
    ensures Keep(rows, f) == rows
  {
    if rows != [] {
      KeepAll(rows[1..], f);
    }
  }

  /**
   * The filters combine conjunctively: the maintenance page is the base list narrowed by
   * the one predicate that requires every non-empty parameter to match; it fails only on
   * a period that is not an integer.
   */
  lemma MaintenanceListConjunctive(base: seq<RatingRow>, mercado: string, instrumento: string, periodo: string)
    ensures var r := MaintenanceList(base, mercado, instrumento, periodo);
      && (r.Err? <==> periodo != "" && ParseInt(periodo).None?)
      && (r.Ok? ==>
            r.value == Keep(base, x => MaintenanceMatches(x, mercado, instrumento, MaintenanceYear(periodo))))
  {
    var year := MaintenanceYear(periodo);
    var fm := x => mercado != "" ==> MarketIs(x, mercado);
    var fi := x => instrumento != "" ==> TickerContains(x, instrumento);
    var fy := x => year.Some? ==> YearIs(x, year.value);
    var a := if mercado != "" then Keep(base, x => MarketIs(x, mercado)) else base;
    if mercado != "" {
      KeepSame(base, x => MarketIs(x, mercado), fm);
    } else {
      KeepAll(base, fm);
    }
    assert a == Keep(base, fm);
    var b := if instrumento != "" then Keep(a, x => TickerContains(x, instrumento)) else a;
    if instrumento != "" {
      KeepSame(a, x => TickerContains(x, instrumento), fi);
    } else {
      KeepAll(a, fi);
    }
    assert b == Keep(a, fi);
    KeepKeep(base, fm, fi);
    var fmi := x => fm(x) && fi(x);
    assert b == Keep(base, fmi);
    var c := if year.Some? then Keep(b, x => YearIs(x, year.value)) else b;
    if year.Some? {
      KeepSame(b, x => YearIs(x, year.value), fy);
    } else {
      KeepAll(b, fy);
    }
    KeepKeep(base, fmi, fy);
    KeepSame(base, x => fmi(x) && fy(x), x => MaintenanceMatches(x, mercado, instrumento, year));
  }

  /** With no filter given, the page lists the base query set as it is. */
  lemma MaintenanceListUnfiltered(base: seq<RatingRow>)
    ensures MaintenanceList(base, "", "", "") == Ok(base)
  {
  }

  // ----- The REST endpoint -----

  /** Newest payment first: `order_by('-evento__fecha_pago')`. */
  predicate PaymentDescending(rows: seq<RatingRow>) {
    forall i, j :: 0 <= i < j < |rows| ==> rows[i].fechaPago >= rows[j].fechaPago
  }

  /** No row of `rows` was paid after day `d`. */
  predicate PaidNoLaterThan(rows: seq<RatingRow>, d: int) {
    forall y :: y in rows ==> y.fechaPago <= d
  }

  lemma ConsDescending(x: RatingRow, rows: seq<RatingRow>)
    requires PaymentDescending(rows) && PaidNoLaterThan(rows, x.fechaPago)
    ensures PaymentDescending([x] + rows)
  {
    forall i, j | 0 <= i < j < |[x] + rows|
      ensures ([x] + rows)[i].fechaPago >= ([x] + rows)[j].fechaPago
    {
      if i == 0 {
        assert ([x] + rows)[j] in rows;
      }
    }
  }

  /** A descending list is paid no later than its first row. */
  lemma HeadBounds(rows: seq<RatingRow>)
    requires rows != [] && PaymentDescending(rows)
    ensures PaidNoLaterThan(rows, rows[0].fechaPago)
  {
    forall y | y in rows
      ensures y.fechaPago <= rows[0].fechaPago
    {
      var i :| 0 <= i < |rows| && rows[i] == y;
    }
  }

  /** Puts `x` in front of the first row paid no later than it. */
  function InsertByPayment(x: RatingRow, rows: seq<RatingRow>): (r: seq<RatingRow>)
    ensures multiset(r) == multiset(rows) + multiset{x}
  {
    if rows == [] || rows[0].fechaPago <= x.fechaPago then [x] + rows
    else
      assert rows == [rows[0]] + rows[1..];
      [rows[0]] + InsertByPayment(x, rows[1..])
  }

  /** Inserting into a descending list keeps it descending. */
  lemma {:induction false} InsertKeepsOrder(x: RatingRow, rows: seq<RatingRow>)
    requires PaymentDescending(rows)
    ensures PaymentDescending(InsertByPayment(x, rows))
  {
    if rows == [] {
      ConsDescending(x, rows);
    } else if rows[0].fechaPago <= x.fechaPago {
      HeadBounds(rows);
      ConsDescending(x, rows);
    } else {
      var tail := InsertByPayment(x, rows[1..]);
      InsertKeepsOrder(x, rows[1..]);
      HeadBounds(rows);
      forall y | y in tail
        ensures y.fechaPago <= rows[0].fechaPago
      {
        assert y in multiset(tail);
        if y != x {
          assert y in multiset(rows[1..]);
          assert y in rows;
        }
      }
      ConsDescending(rows[0], tail);
    }
  }

  /** The base query set of the endpoint: every rating, newest payment first. */
  function OrderByPaymentDesc(rows: seq<RatingRow>): (r: seq<RatingRow>)
    ensures multiset(r) == multiset(rows)
    ensures PaymentDescending(r)
  {
    if rows == [] then []
    else
      assert rows == [rows[0]] + rows[1..];
      var sorted := OrderByPaymentDesc(rows[1..]);
      InsertKeepsOrder(rows[0], sorted);
      InsertByPayment(rows[0], sorted)
  }

  /** Filtering never breaks the order. */
  lemma {:induction false} KeepKeepsOrder(rows: seq<RatingRow>, f: RatingRow -> bool)
    requires PaymentDescending(rows)
    ensures PaymentDescending(Keep(rows, f))
  {
    if rows != [] {
      KeepKeepsOrder(rows[1..], f);
      var r := Keep(rows[1..], f);
      HeadBounds(rows);
      assert PaidNoLaterThan(r, rows[0].fechaPago) by {
        forall y | y in r
          ensures y.fechaPago <= rows[0].fechaPago
        {
          assert y in rows[1..];
          assert y in rows;
        }
      }
      if f(rows[0]) {
        ConsDescending(rows[0], r);
      }
    }
  }

  /** The year the `year` parameter asks for; `None` when it is absent or empty. */
  function ApiYear(year: Option<string>): Option<int> {
    if year.None? || year.value == "" then None else ParseInt(year.value)
  }

  /** A row the endpoint lists: it passes each filter whose parameter is given and non-empty. */
  predicate ApiMatches(x: RatingRow, nemonico: Option<string>, year: Option<int>) {
    && (nemonico.Some? && nemonico.value != "" ==> TickerContains(x, nemonico.value))
    && (year.Some? ==> YearIs(x, year.value))
  }

  /** `get_queryset`: the `nemonico` and `year` parameters, each applied when non-empty. */
  function ApiQueryset(base: seq<RatingRow>, nemonico: Option<string>, year: Option<string>)
    : Result<seq<RatingRow>, ListError>
  {
    var ordered := OrderByPaymentDesc(base);
    var a := if nemonico.Some? && nemonico.value != "" then Keep(ordered, x => TickerContains(x, nemonico.value))
             else ordered;
    if year.None? || year.value == "" then Ok(a)
    else match QueryInt("year", year.value)
      case Ok(y) => Ok(Keep(a, x => YearIs(x, y)))
      case Err(e) => Err(e)
  }

  /** The two filters of `get_queryset` are one filter by `ApiMatches` of the ordered base. */
  lemma ApiQuerysetIsKeep(base: seq<RatingRow>, nemonico: Option<string>, year: Option<string>)
    ensures var r := ApiQueryset(base, nemonico, year);
      && (r.Err? <==> year.Some? && year.value != "" && ParseInt(year.value).None?)
      && (r.Ok? ==> r.value == Keep(OrderByPaymentDesc(base), x => ApiMatches(x, nemonico, ApiYear(year))))
  {
    var ordered := OrderByPaymentDesc(base);
    var fn := x => nemonico.Some? && nemonico.value != "" ==> TickerContains(x, nemonico.value);
    var fy := x => ApiYear(year).Some? ==> YearIs(x, ApiYear(year).value);
    var a := if nemonico.Some? && nemonico.value != "" then Keep(ordered, x => TickerContains(x, nemonico.value))
             else ordered;
    if nemonico.Some? && nemonico.value != "" {
      KeepSame(ordered, x => TickerContains(x, nemonico.value), fn);
    } else {
      KeepAll(ordered, fn);
    }
    assert a == Keep(ordered, fn);
    if ApiYear(year).Some? {
      KeepSame(a, x => YearIs(x, ApiYear(year).value), fy);
    } else {
      KeepAll(a, fy);
    }
    KeepKeep(ordered, fn, fy);
    KeepSame(ordered, x => fn(x) && fy(x), x => ApiMatches(x, nemonico, ApiYear(year)));
  }

  /**
   * The endpoint lists exactly the ratings that pass both given filters, each once per
   * occurrence in the base, newest payment first; with neither parameter it lists the
   * whole base query set.
   */
  lemma ApiQuerysetSpec(base: seq<RatingRow>, nemonico: Option<string>, year: Option<string>)
    ensures var r := ApiQueryset(base, nemonico, year);
      && (r.Err? <==> year.Some? && year.value != "" && ParseInt(year.value).None?)
      && (r.Ok? ==>
            && PaymentDescending(r.value)
            && r.value == Keep(OrderByPaymentDesc(base), x => ApiMatches(x, nemonico, ApiYear(year)))
            && (forall x :: multiset(r.value)[x] == if ApiMatches(x, nemonico, ApiYear(year)) then multiset(base)[x] else 0)
            && (forall x :: x in r.value <==> x in base && ApiMatches(x, nemonico, ApiYear(year))))
    ensures (nemonico.None? || nemonico == Some("")) && (year.None? || year == Some("")) ==>
      ApiQueryset(base, nemonico, year) == Ok(OrderByPaymentDesc(base))
  {
    ApiQuerysetIsKeep(base, nemonico, year);
    var ordered := OrderByPaymentDesc(base);
    var f := x => ApiMatches(x, nemonico, ApiYear(year));
    KeepKeepsOrder(ordered, f);
    assert forall x :: x in ordered <==> x in base by {
      assert forall x :: x in ordered <==> x in multiset(ordered);
      assert forall x :: x in base <==> x in multiset(base);
    }
  }

  // ----- The listings over the database -----

  /** A filter of a rating query set lists each of its ratings at most once. */
  lemma KeepRowsOf(t: Tables, rows: seq<RatingRow>, f: RatingRow -> bool)
    requires RowsOf(t, rows)
    ensures var r := Keep(rows, f);
      && (forall x :: multiset(r)[x] <= 1)
      && (forall x :: x in r ==> x.key in t.ratings && x.key in t.events && x == RowFor(t, x.key))
      && (forall k :: k in t.ratings && k in t.events ==> (RowFor(t, k) in r <==> f(RowFor(t, k))))
  {
    var r := Keep(rows, f);
    forall x | x in r
      ensures x.key in t.ratings && x.key in t.events && x == RowFor(t, x.key)
    {
      var i :| 0 <= i < |rows| && rows[i] == x;
    }
  }

  /**
   * Over the ratings of a database: the maintenance page shows the rating of event `k`
   * iff it passes the given filters, and each rating at most once.
   */
  lemma MaintenanceListsRatings(t: Tables, base: seq<RatingRow>, mercado: string, instrumento: string, periodo: string)
    requires RowsOf(t, base)
    ensures var r := MaintenanceList(base, mercado, instrumento, periodo);
      r.Ok? ==>
        && (forall x :: multiset(r.value)[x] <= 1)
        && (forall x :: x in r.value ==> x.key in t.ratings && x.key in t.events && x == RowFor(t, x.key))
        && (forall k :: k in t.ratings && k in t.events ==>
              (RowFor(t, k) in r.value <==> MaintenanceMatches(RowFor(t, k), mercado, instrumento, MaintenanceYear(periodo))))
  {
    MaintenanceListConjunctive(base, mercado, instrumento, periodo);
    KeepRowsOf(t, base, x => MaintenanceMatches(x, mercado, instrumento, MaintenanceYear(periodo)));
  }

  /** Reordering the rating rows of a database gives rating rows of it again. */
  lemma RowsOfPermutation(t: Tables, rows: seq<RatingRow>, other: seq<RatingRow>)
    requires RowsOf(t, rows) && multiset(other) == multiset(rows)
    ensures RowsOf(t, other)
  {
    forall i | 0 <= i < |other|
      ensures other[i].key in t.ratings && other[i].key in t.events && other[i] == RowFor(t, other[i].key)
    {
      assert other[i] in multiset(rows);
      var j :| 0 <= j < |rows| && rows[j] == other[i];
    }
    forall k | k in t.ratings
      ensures RowFor(t, k) in other
    {
      assert RowFor(t, k) in multiset(rows);
    }
  }

  /**
   * Over the ratings of a database: the endpoint lists the rating of event `k` iff it
   * passes the given filters, each rating at most once, newest payment first.
   */
  lemma ApiListsRatings(t: Tables, base: seq<RatingRow>, nemonico: Option<string>, year: Option<string>)
    requires RowsOf(t, base)
    ensures var r := ApiQueryset(base, nemonico, year);
      r.Ok? ==>
        && PaymentDescending(r.value)
        && (forall x :: multiset(r.value)[x] <= 1)
        && (forall x :: x in r.value ==> x.key in t.ratings && x.key in t.events && x == RowFor(t, x.key))
        && (forall k :: k in t.ratings && k in t.events ==>
              (RowFor(t, k) in r.value <==> ApiMatches(RowFor(t, k), nemonico, ApiYear(year))))
  {
    ApiQuerysetSpec(base, nemonico, year);
    var ordered := OrderByPaymentDesc(base);
    RowsOfPermutation(t, base, ordered);
    KeepRowsOf(t, ordered, x => ApiMatches(x, nemonico, ApiYear(year)));
  }
}
