/**
 * The `seed_factores` management command: in one transaction, update-or-create the
 * concept of every column of the DJ 1949 affidavit (columns 8 to 37) with its
 * description. An existing concept keeps its primary key and data type.
 */
module Seed {
  import opened Models
  import Store

  /** The catalogue: (column, description) for columns 8..37 in order. */
  const Factors: seq<(int, string)> := [
    (8, "No constitutiva de Renta No Acogido a Impto."),
    (9, "Impto. 1ra Categ. Afecto GI. Comp. Con Devolución"),
    (10, "Impuesto Tasa Adicional Exento Art. 21"),
    (11, "Incremento Impuesto 1ra Categoría"),
    (12, "Impto. 1ra Categ. Exento GI. Comp. Con Devolución"),
    (13, "Impto. 1ra Categ. Afecto GI. Comp. Sin Devolución"),
    (14, "Impto. 1ra Categ. Exento GI. Comp, Sin Devolución"),
    (15, "Impto. Créditos por Impuestos Externos"),
    (16, "No Constitutiva de Renta Acogido a Impto."),
    (17, "No constitutiva de Renta Devolución de Capital Art. 17"),
    (18, "Rentas Exentas de Impto. GC Y/O Impto Adicional"),
    (19, "A Ingreso no Constitutivos de Renta"),
    (20, "Sin Derecho a Devolución"),
    (21, "Con Derecho a Devolución"),
    (22, "Sin Derecho a Devolución"),
    (23, "Con Derecho a Devolución"),
    (24, "Sin derecho a devolución"),
    (25, "Con Derecho a Devolución"),
    (26, "Sin derecho a devolución"),
    (27, "Con Derecho a Devolución"),
    (28, "Crédito por IPE"),
    (29, "Sin derecho a devolución"),
    (30, "Con Derecho a Devolución"),
    (31, "Sin derecho a devolución"),
    (32, "Con Derecho a Devolución"),
    (33, "Crédito por IPE"),
    (34, "Cred. Por Impto. Tasa Adicional, Ex Art 21 LIR"),
    (35, "Tasa Efectiva Del Cred. Del FUT (TEF)"),
    (36, "Tasa Efectiva Del Cred. Del FUNT (TEX)"),
    (37, "Devolución de Capital Art. 17 num 7 LIR")
  ]

  /** The columns a catalogue lists. */
  function Columns(entries: seq<(int, string)>): set<int> {
    set i | 0 <= i < |entries| :: entries[i].0
  }

  /** No column is listed twice. */
  predicate DistinctColumns(entries: seq<(int, string)>) {
    forall i, j :: 0 <= i < j < |entries| ==> entries[i].0 != entries[j].0
  }

  /** The catalogue lists columns 8, 9, ..., 37, each once. */
  lemma FactorsContiguous()
    ensures |Factors| == 30
    ensures forall i :: 0 <= i < |Factors| ==> Factors[i].0 == 8 + i
    ensures DistinctColumns(Factors)
    ensures forall c :: c in Columns(Factors) <==> 8 <= c <= 37
  {
    assert forall i :: 0 <= i < |Factors| ==> Factors[i].0 == 8 + i;
    forall c | 8 <= c <= 37
      ensures c in Columns(Factors)
    {
      assert Factors[c - 8].0 == c;
    }
  }

  /** `update_or_create(columna_dj=columna, defaults={'descripcion': descripcion})`. */
  function Upsert(t: Tables, columna: int, descripcion: string): Tables {
    if columna in t.concepts then t.(concepts := t.concepts[columna := t.concepts[columna].(descripcion := descripcion)])
    else t.(concepts := t.concepts[columna := Concept(t.nextPk, descripcion, DefaultTipoDato)], nextPk := t.nextPk + 1)
  }

  /** The loop of `handle` over `entries`. */
  function SeedFrom(t: Tables, entries: seq<(int, string)>): Tables
    decreases |entries|
  {
    if entries == [] then t else SeedFrom(Upsert(t, entries[0].0, entries[0].1), entries[1..])
  }

  /** `handle`: the catalogue upserted into `t`. */
  function SeedSpec(t: Tables): Tables {
    SeedFrom(t, Factors)
  }

  /** The listed columns are the first entry's and the rest's. */
  lemma ColumnsCons(entries: seq<(int, string)>)
    requires entries != []
    ensures Columns(entries) == {entries[0].0} + Columns(entries[1..])
  {
    var rest := entries[1..];
    forall c | c in Columns(entries)
      ensures c in {entries[0].0} + Columns(rest)
    {
      var i :| 0 <= i < |entries| && entries[i].0 == c;
      if i > 0 {
        assert rest[i - 1].0 == c;
      }
    }
    forall c | c in Columns(rest)
      ensures c in Columns(entries)
    {
      var i :| 0 <= i < |rest| && rest[i].0 == c;
      assert entries[i + 1].0 == c;
    }
  }

  /**
   * A run touches the concept table alone: it gains exactly the listed columns, and new
   * keys are handed out only for columns that were missing.
   */
  lemma {:induction false} SeedFromFrame(t: Tables, entries: seq<(int, string)>)
    decreases |entries|
    ensures var r := SeedFrom(t, entries);
      && r.issuers == t.issuers && r.events == t.events && r.ratings == t.ratings && r.details == t.details
      && r.concepts.Keys == t.concepts.Keys + Columns(entries)
      && r.nextPk >= t.nextPk
      && (Columns(entries) <= t.concepts.Keys ==> r.nextPk == t.nextPk)
  {
    if entries != [] {
      ColumnsCons(entries);
      SeedFromFrame(Upsert(t, entries[0].0, entries[0].1), entries[1..]);
    }
  }

  /** An existing concept keeps its key and type; one in an unlisted column is untouched. */
  lemma {:induction false} SeedFromKeeps(t: Tables, entries: seq<(int, string)>, c: int)
    requires c in t.concepts
    decreases |entries|
    ensures var r := SeedFrom(t, entries);
      && c in r.concepts
      && r.concepts[c].pk == t.concepts[c].pk && r.concepts[c].tipoDato == t.concepts[c].tipoDato
      && (c !in Columns(entries) ==> r.concepts[c] == t.concepts[c])
  {
    if entries != [] {
      ColumnsCons(entries);
      SeedFromKeeps(Upsert(t, entries[0].0, entries[0].1), entries[1..], c);
    }
  }

  /** Every listed column ends up carrying its listed description. */
  lemma {:induction false} SeedFromDescribes(t: Tables, entries: seq<(int, string)>, i: int)
    requires DistinctColumns(entries) && 0 <= i < |entries|
    decreases |entries|
    ensures var r := SeedFrom(t, entries);
      entries[i].0 in r.concepts && r.concepts[entries[i].0].descripcion == entries[i].1
  {
    var u := Upsert(t, entries[0].0, entries[0].1);
    var rest := entries[1..];
    if i > 0 {
      assert entries[i] == rest[i - 1];
      SeedFromDescribes(u, rest, i - 1);
    } else {
      assert entries[0].0 !in Columns(rest) by {
        forall j | 0 <= j < |rest|
          ensures rest[j].0 != entries[0].0
        {
          assert entries[j + 1] == rest[j];
        }
      }
      SeedFromKeeps(u, rest, entries[0].0);
    }
  }

  /** Seeding twice with a catalogue that lists each column once is seeding once. */
  lemma SeedFromIdempotent(t: Tables, entries: seq<(int, string)>)
    requires DistinctColumns(entries)
    ensures SeedFrom(SeedFrom(t, entries), entries) == SeedFrom(t, entries)
  {
    var r := SeedFrom(t, entries);
    var r2 := SeedFrom(r, entries);
    SeedFromFrame(t, entries);
    SeedFromFrame(r, entries);
    forall c | c in r2.concepts
      ensures r2.concepts[c] == r.concepts[c]
    {
      SeedFromKeeps(r, entries, c);
      if c in Columns(entries) {
        var i :| 0 <= i < |entries| && entries[i].0 == c;
        SeedFromDescribes(t, entries, i);
        SeedFromDescribes(r, entries, i);
      }
    }
    assert r2.concepts == r.concepts;
  }

  /** Running `handle` twice gives the state running it once gives. */
  lemma SeedIdempotent(t: Tables)
    ensures SeedSpec(SeedSpec(t)) == SeedSpec(t)
  {
    FactorsContiguous();
    SeedFromIdempotent(t, Factors);
  }

  lemma UpsertValid(t: Tables, columna: int, descripcion: string)
    requires Valid(t)
    ensures Valid(Upsert(t, columna, descripcion))
  {
  }

  lemma {:induction false} SeedFromValid(t: Tables, entries: seq<(int, string)>)
    requires Valid(t)
    ensures Valid(SeedFrom(t, entries))
    decreases |entries|
  {
    if entries != [] {
      UpsertValid(t, entries[0].0, entries[0].1);
      SeedFromValid(Upsert(t, entries[0].0, entries[0].1), entries[1..]);
    }
  }

  /** Column `e.0` has a concept carrying description `e.1`. */
  predicate Described(r: Tables, e: (int, string)) {
    e.0 in r.concepts && r.concepts[e.0].descripcion == e.1
  }

  /**
   * A run over a catalogue that lists each column once leaves every listed column
   * described as listed and every unlisted concept untouched.
   */
  lemma SeedFromCovers(t: Tables, entries: seq<(int, string)>)
    requires DistinctColumns(entries)
    ensures var r := SeedFrom(t, entries);
      && (forall i :: 0 <= i < |entries| ==> Described(r, entries[i]))
      && (forall c :: c in t.concepts && c !in Columns(entries) ==> c in r.concepts && r.concepts[c] == t.concepts[c])
  {
    forall i | 0 <= i < |entries|
      ensures Described(SeedFrom(t, entries), entries[i])
    {
      SeedFromDescribes(t, entries, i);
    }
    forall c | c in t.concepts && c !in Columns(entries)
      ensures c in SeedFrom(t, entries).concepts && SeedFrom(t, entries).concepts[c] == t.concepts[c]
    {
      SeedFromKeeps(t, entries, c);
    }
  }

  /**
   * After `handle`, columns 8..37 all have a concept, each listed column carries its
   * listed description, concepts of other columns are untouched, and the tables stay valid.
   */
  lemma SeedSpecCovers(t: Tables)
    ensures var r := SeedSpec(t);
      && (forall c :: 8 <= c <= 37 ==> c in r.concepts)
      && (forall i :: 0 <= i < |Factors| ==> Described(r, Factors[i]))
      && (forall c :: c in t.concepts && !(8 <= c <= 37) ==> c in r.concepts && r.concepts[c] == t.concepts[c])
      && (Valid(t) ==> Valid(r))
  {
    FactorsContiguous();
    SeedFromFrame(t, Factors);
    SeedFromCovers(t, Factors);
    if Valid(t) {
      SeedFromValid(t, Factors);
    }
  }

  /** The loop of `handle`, one `update_or_create` per entry. */
  method SeedEntries(db: Store.Database, entries: seq<(int, string)>)
    modifies db
    ensures db.State() == SeedFrom(old(db.State()), entries)
  {
    var i := 0;
    while i < |entries|
      invariant 0 <= i <= |entries|
      invariant SeedFrom(db.State(), entries[i..]) == SeedFrom(old(db.State()), entries)
    {
      var (columna, descripcion) := entries[i];
      assert entries[i..][1..] == entries[i + 1..];
      if columna in db.concepts {
        db.concepts := db.concepts[columna := db.concepts[columna].(descripcion := descripcion)];
      } else {
        db.concepts := db.concepts[columna := Concept(db.nextPk, descripcion, DefaultTipoDato)];
        db.nextPk := db.nextPk + 1;
      }
      i := i + 1;
    }
  }

  /** `handle` on the database, inside one transaction (nothing in it can fail). */
  method SeedFactors(db: Store.Database)
    modifies db
    ensures db.State() == SeedSpec(old(db.State()))
  {
    SeedEntries(db, Factors);
  }
}
