/**
 * The error formalizer of src/lib/error-handling.ts.
 *
 * `formalizeErrors` maps each `{ key, message }` record to a copy whose
 * message is prefixed with the label of its key when the key appears in the
 * one-entry `formKeys` table, and left as it is otherwise.
 */
module ErrorHandling {
  import opened Wrappers

  /** A `{ key, message }` record as the server reports it. */
  datatype ValidationError = ValidationError(key: string, message: string)

  /** An entry `{ key, identifier }` of a label table. */
  datatype FormKey = FormKey(key: string, identifier: string)

  const EmailKey: string := "email"
  const EmailIdentifier: string := "The e-mail"

  /** The label table `formKeys`. */
  const FormKeys: seq<FormKey> := [FormKey(EmailKey, EmailIdentifier)]

  /** `table.find(fk => fk.key === key)`: the first entry with that key, if any. */
  function FindFormKey(table: seq<FormKey>, key: string): (r: Option<FormKey>)
    ensures r.None? <==> forall n | 0 <= n < |table| :: table[n].key != key
    ensures r.Some? ==> exists n | 0 <= n < |table| ::
      table[n] == r.value && r.value.key == key && forall m | 0 <= m < n :: table[m].key != key
  {
    if table == [] then None
    else if table[0].key == key then Some(table[0])
    else
      var r := FindFormKey(table[1..], key);
      assert forall n | 1 <= n < |table| :: table[n] == table[1..][n - 1];
      r
  }

  /** The callback given to `errors.map`. */
  function FormalizeError(e: ValidationError): (r: ValidationError)
    ensures r.key == e.key
    ensures e.key == EmailKey ==> r.message == EmailIdentifier + " " + e.message
    ensures e.key != EmailKey ==> r == e
  {
    match FindFormKey(FormKeys, e.key)
    case None => e.(message := e.message)
    case Some(fk) => e.(message := fk.identifier + " " + e.message)
  }

  /** `list.map(f)`: the i-th output is `f` of the i-th input. */
  function MapErrors(f: ValidationError -> ValidationError, errors: seq<ValidationError>)
    : (r: seq<ValidationError>)
    ensures |r| == |errors|
    ensures forall i | 0 <= i < |errors| :: r[i] == f(errors[i])
  {
    if errors == [] then [] else [f(errors[0])] + MapErrors(f, errors[1..])
  }

  /**
   * `formalizeErrors`: length, order and keys are kept, `email` messages get
   * the label, and every other record is copied unchanged.
   */
  function FormalizeErrors(errors: seq<ValidationError>): (r: seq<ValidationError>)
    ensures |r| == |errors|
    ensures forall i | 0 <= i < |errors| :: r[i].key == errors[i].key
    ensures forall i | 0 <= i < |errors| && errors[i].key == "email" ::
      r[i].message == "The e-mail " + errors[i].message
    ensures forall i | 0 <= i < |errors| && errors[i].key != "email" :: r[i] == errors[i]
  {
    assert EmailIdentifier + " " == "The e-mail ";
    MapErrors(FormalizeError, errors)
  }

  /** Formalizing distributes over concatenation, and the empty list stays empty. */
  lemma FormalizeErrorsAppend(a: seq<ValidationError>, b: seq<ValidationError>)
    ensures FormalizeErrors([]) == []
    ensures FormalizeErrors(a + b) == FormalizeErrors(a) + FormalizeErrors(b)
  {
  }

  /** Without `email` keys formalizing is the identity, hence idempotent. */
  lemma FormalizeErrorsIdentity(errors: seq<ValidationError>)
    requires forall i | 0 <= i < |errors| :: errors[i].key != EmailKey
    ensures FormalizeErrors(errors) == errors
    ensures FormalizeErrors(FormalizeErrors(errors)) == FormalizeErrors(errors)
  {
  }
}
