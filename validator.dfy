/** Checking an order request before it is stored: a pure function from the
    decoded request body to the list of everything wrong with it. */
module Validator {
  import opened Wrappers
  import opened Numerals
  import opened Market

  /** A decoded JSON request body. JSON integers and floats decode to
      different Python types; floats include NaN and the infinities that
      Python's decoder accepts. */
  datatype Json =
    | JNull
    | JBool(b: bool)
    | JInt(i: int)
    | JFloat(f: PyFloat)
    | JStr(s: string)
    | JArray(items: seq<Json>)
    | JObject(fields: map<string, Json>)

  const StoksKey := "stoks"
  const QuantityKey := "quantity"

  /** The only keys an order request may have. */
  const RequiredParams: set<string> := {StoksKey, QuantityKey}

  /** One complaint about a request. The three checks of a dict request
      each contribute at most one. */
  datatype VerifyError =
    | NotDict
    | MissingStoks
    | UnrecognizedStoks(stoks: Json)
    | MissingQuantity
    | NonNumericQuantity(quantity: Json)
    | NegativeQuantity(quantity: Json)
    | UnexpectedParams(keys: set<string>)

  /** Which check an error comes from: the stoks check, the quantity check or
      the unexpected-key check, in the order they run. */
  function Stage(e: VerifyError): nat {
    match e
    case NotDict => 0
    case MissingStoks => 0
    case UnrecognizedStoks(_) => 0
    case MissingQuantity => 1
    case NonNumericQuantity(_) => 1
    case NegativeQuantity(_) => 1
    case UnexpectedParams(_) => 2
  }

  /** Values that can be looked up in a dict; a list or dict value raises
      `TypeError` in the stoks membership test. */
  predicate Hashable(v: Json) {
    !v.JArray? && !v.JObject?
  }

  /** Values that `float()` does not reject with `TypeError`. */
  predicate Convertible(v: Json) {
    v.JBool? || v.JInt? || v.JFloat? || v.JStr?
  }

  /** Requests the checks handle at all: any non-dict, and any dict whose
      stoks and quantity values (where present) raise no `TypeError`. */
  predicate InScope(order: Json) {
    order.JObject? ==>
      (StoksKey in order.fields ==> Hashable(order.fields[StoksKey])) &&
      (QuantityKey in order.fields ==> Convertible(order.fields[QuantityKey]))
  }

  /** Python's `float(v)`; `None` where it raises `ValueError`. */
  function FloatOf(v: Json): (r: Option<PyFloat>)
    requires Convertible(v)
    ensures !v.JStr? ==> r.Some?
    ensures v.JInt? ==> r == Some(Finite(v.i as real))
  {
    match v
    case JBool(b) => Some(Finite(if b then 1.0 else 0.0))
    case JInt(i) => Some(Finite(i as real))
    case JFloat(f) => Some(f)
    case JStr(s) => ParseFloat(s)
  }

  /** A stoks value that names one of the six pairs. */
  predicate KnownCode(v: Json) {
    v.JStr? && StoksOf(v.s).Some?
  }

  /** A quantity value that converts to a number at least zero. */
  predicate QuantityOk(v: Json) {
    Convertible(v) && FloatOf(v).Some? && AtLeastZero(FloatOf(v).value)
  }

  /** The keys of a request other than the two required ones. */
  function Unexpected(fields: map<string, Json>): (keys: set<string>)
    ensures forall k :: k in keys <==> k in fields && k != StoksKey && k != QuantityKey
  {
    fields.Keys - RequiredParams
  }

  /** An order request the service accepts: a dict with exactly the keys
      stoks and quantity, a known pair code and a quantity of at least zero. */
  predicate Acceptable(order: Json) {
    order.JObject? && order.fields.Keys == RequiredParams &&
    KnownCode(order.fields[StoksKey]) && QuantityOk(order.fields[QuantityKey])
  }

  /** The stoks check. */
  function VerifyStoks(fields: map<string, Json>): (r: Option<VerifyError>)
    requires StoksKey in fields ==> Hashable(fields[StoksKey])
    ensures r.None? <==> StoksKey in fields && KnownCode(fields[StoksKey])
    ensures r == Some(MissingStoks) <==> StoksKey !in fields
    ensures r.Some? && StoksKey in fields ==> r == Some(UnrecognizedStoks(fields[StoksKey]))
  {
    if StoksKey !in fields then Some(MissingStoks)
    else if !KnownCode(fields[StoksKey]) then Some(UnrecognizedStoks(fields[StoksKey]))
    else None
  }

  /** The quantity check: a missing key, a value `float()` rejects and a
      value below zero (or NaN) each give their own error. */
  function VerifyQuantity(fields: map<string, Json>): (r: Option<VerifyError>)
    requires QuantityKey in fields ==> Convertible(fields[QuantityKey])
    ensures r.None? <==> QuantityKey in fields && QuantityOk(fields[QuantityKey])
    ensures r == Some(MissingQuantity) <==> QuantityKey !in fields
    ensures QuantityKey in fields ==>
      (r == Some(NonNumericQuantity(fields[QuantityKey])) <==> FloatOf(fields[QuantityKey]).None?)
    ensures QuantityKey in fields ==>
      (r == Some(NegativeQuantity(fields[QuantityKey])) <==>
         FloatOf(fields[QuantityKey]).Some? && !AtLeastZero(FloatOf(fields[QuantityKey]).value))
  {
    if QuantityKey !in fields then Some(MissingQuantity)
    else
      var q := fields[QuantityKey];
      match FloatOf(q)
      case None => Some(NonNumericQuantity(q))
      case Some(f) => if !AtLeastZero(f) then Some(NegativeQuantity(q)) else None
  }

  function Present(e: Option<VerifyError>): seq<VerifyError> {
    if e.Some? then [e.value] else []
  }

  /** Every error of a request: a non-dict gets exactly one error; a dict
      gets the errors of all three checks, in the order the checks run, and
      none exactly when it is acceptable. */
  function Verify(order: Json): (errs: seq<VerifyError>)
    requires InScope(order)
    ensures !order.JObject? ==> errs == [NotDict]
    ensures order.JObject? ==> (errs == [] <==> Acceptable(order))
    ensures order.JObject? ==> forall i, j :: 0 <= i < j < |errs| ==> Stage(errs[i]) < Stage(errs[j])
    ensures order.JObject? ==> forall e ::
      e in errs <==> VerifyStoks(order.fields) == Some(e) || VerifyQuantity(order.fields) == Some(e) ||
                     (Unexpected(order.fields) != {} && e == UnexpectedParams(Unexpected(order.fields)))
  {
    if !order.JObject? then [NotDict]
    else
      var unexpected := Unexpected(order.fields);
      var errs := Present(VerifyStoks(order.fields)) + Present(VerifyQuantity(order.fields)) +
                  (if unexpected != {} then [UnexpectedParams(unexpected)] else []);
      assert errs == [] ==> order.fields.Keys == RequiredParams;
      errs
  }

  /** The valid request of the service's REST tests is accepted. */
  lemma AcceptsValidExample()
    ensures Verify(JObject(map[StoksKey := JStr("EURSEK"), QuantityKey := JInt(125)])) == []
  {
  }

  /** The rejected requests of the service's REST tests, each with the
      errors it gets. */
  lemma RejectsMissingStoks()
    ensures Verify(JObject(map[QuantityKey := JInt(125)])) == [MissingStoks]
  {
  }

  lemma RejectsMissingQuantity()
    ensures Verify(JObject(map[StoksKey := JStr("EURSEK")])) == [MissingQuantity]
  {
  }

  lemma RejectsUnknownPair()
    ensures Verify(JObject(map[StoksKey := JStr("FOOBAZ"), QuantityKey := JInt(125)])) ==
            [UnrecognizedStoks(JStr("FOOBAZ"))]
  {
  }

  lemma RejectsNegativeQuantity()
    ensures Verify(JObject(map[StoksKey := JStr("EURSEK"), QuantityKey := JInt(-50)])) ==
            [NegativeQuantity(JInt(-50))]
  {
  }

  lemma RejectsNonNumericQuantity()
    ensures Verify(JObject(map[StoksKey := JStr("EURSEK"), QuantityKey := JStr("50k0c")])) ==
            [NonNumericQuantity(JStr("50k0c"))]
  {
    var fields := map[StoksKey := JStr("EURSEK"), QuantityKey := JStr("50k0c")];
    NonNumericExample();
    assert FloatOf(fields[QuantityKey]) == None;
    assert VerifyQuantity(fields) == Some(NonNumericQuantity(JStr("50k0c")));
    assert StoksOf("EURSEK") == Some(EuroToSek);
    assert VerifyStoks(fields) == None;
    assert fields.Keys == RequiredParams;
    assert Unexpected(fields) == {};
  }

  lemma RejectsUnknownPairAndExtraKey()
    ensures Verify(JObject(map[StoksKey := JStr("FOOBAZ"), QuantityKey := JInt(125), "foobar" := JInt(3)])) ==
            [UnrecognizedStoks(JStr("FOOBAZ")), UnexpectedParams({"foobar"})]
  {
    var fields := map[StoksKey := JStr("FOOBAZ"), QuantityKey := JInt(125), "foobar" := JInt(3)];
    assert Unexpected(fields) == {"foobar"};
  }
}
