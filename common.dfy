/** Shared vocabulary: optional values, results with the marketplace's error kinds,
    opaque document ids and the handful of JavaScript values the request bodies carry. */
module Common {

  /** A document id (a Mongo ObjectId), abstracted to a number. */
  type Id = nat

  datatype Option<+T> = None | Some(value: T)

  /** The ways a request can fail.
      - AppError: the source's own `AppError(message, statusCode)`;
      - RuntimeError: a JavaScript TypeError (a property read on null or undefined);
      - SchemaError: a Mongoose ValidationError, listing the schema paths that failed;
      - DuplicateKey: a unique-index violation reported by the database. */
  datatype Error =
    | AppError(status: nat, message: string)
    | RuntimeError(what: string)
    | SchemaError(paths: seq<string>)
    | DuplicateKey(index: string)

  datatype Result<+T> = Success(value: T) | Failure(error: Error) {
    predicate IsFailure() { Failure? }
  }

  /** The JavaScript values that appear in request bodies and form data. */
  datatype JsValue = Undefined | Null | Bool(b: bool) | Num(n: int) | Str(s: string)

  /** JavaScript truthiness: `undefined`, `null`, `false`, `0` and `""` are falsy. */
  predicate Truthy(v: JsValue)
  {
    match v
    case Undefined => false
    case Null => false
    case Bool(b) => b
    case Num(n) => n != 0
    case Str(s) => s != ""
  }

  /** A string-valued field that may be absent: truthy iff present and non-empty. */
  predicate Filled(s: Option<string>)
  {
    s.Some? && s.value != ""
  }

  /** A number-valued field that may be absent: truthy iff present and non-zero. */
  predicate NonZero(n: Option<int>)
  {
    n.Some? && n.value != 0
  }

  /** `x || 0` for an optional number. */
  function OrZero(n: Option<int>): int
  {
    if n.Some? then n.value else 0
  }

  /** `Promise.all` over results taken in order: every value when all succeed, otherwise the
      error of the first that fails. */
  function AllOf<T>(rs: seq<Result<T>>): (r: Result<seq<T>>)
    ensures r.Success? <==> forall i :: 0 <= i < |rs| ==> rs[i].Success?
    ensures r.Success? ==> |r.value| == |rs| && forall i :: 0 <= i < |rs| ==> rs[i] == Success(r.value[i])
    ensures r.Failure? ==> exists i :: 0 <= i < |rs| && rs[i] == Failure(r.error) && forall j :: 0 <= j < i ==> rs[j].Success?
  {
    if rs == [] then Success([])
    else
      var init := AllOf(rs[..|rs| - 1]);
      var last := rs[|rs| - 1];
      assert forall i :: 0 <= i < |rs| - 1 ==> rs[..|rs| - 1][i] == rs[i];
      if init.Failure? then Failure(init.error)
      else if last.Failure? then Failure(last.error)
      else Success(init.value + [last.value])
  }

  /** One more success extends the collected values. */
  lemma AllOfStep<T>(rs: seq<Result<T>>, i: nat, vs: seq<T>)
    requires i < |rs| && AllOf(rs[..i]) == Success(vs) && rs[i].Success?
    ensures AllOf(rs[..i + 1]) == Success(vs + [rs[i].value])
  {
    assert rs[..i + 1][..i] == rs[..i];
  }

  /** The first failure decides the outcome of the whole sequence. */
  lemma AllOfStepFails<T>(rs: seq<Result<T>>, i: nat)
    requires i < |rs| && AllOf(rs[..i]).Success? && rs[i].Failure?
    ensures AllOf(rs) == Failure(rs[i].error)
  {
    assert rs[..i + 1][..i] == rs[..i];
    AllOfPrefixFails(rs, i + 1);
  }

  lemma {:induction false} AllOfPrefixFails<T>(rs: seq<Result<T>>, n: nat)
    requires n <= |rs| && AllOf(rs[..n]).Failure?
    ensures AllOf(rs) == AllOf(rs[..n])
    decreases |rs| - n
  {
    if n < |rs| {
      assert rs[..n + 1][..n] == rs[..n];
      AllOfPrefixFails(rs, n + 1);
    } else {
      assert rs[..n] == rs;
    }
  }
}
