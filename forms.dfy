/** The rating form's own validation rule: `CalificacionForm.clean_monto_unitario_pesos`. */
module Forms {
  import opened Common

  datatype FormError = NegativeAmount

  /**
   * A negative amount per share is rejected; anything else, including zero and a missing
   * amount, passes through unchanged.
   */
  function CleanMonto(monto: Option<real>): (r: Result<Option<real>, FormError>)
    ensures r.Err? <==> monto.Some? && monto.value < 0.0
    ensures r.Ok? ==> r.value == monto
  {
    if monto.Some? && monto.value < 0.0 then Err(NegativeAmount) else Ok(monto)
  }

  /** The check is strict: zero is accepted, and a cleaned amount cleans to itself. */
  lemma CleanMontoBoundary(monto: Option<real>)
    ensures CleanMonto(Some(0.0)) == Ok(Some(0.0))
    ensures CleanMonto(None) == Ok(None)
    ensures CleanMonto(monto).Ok? ==> CleanMonto(CleanMonto(monto).value) == CleanMonto(monto)
  {
  }
}
