/**
 * The logic of src/App.tsx: its own `formalizeErrors`, which prefixes the
 * message of an unknown key with the key itself, and the `post` step of
 * `onSubmit`, which sends the form only when a session token is stored and
 * then replaces the component's error list according to the response.
 */
module App {
  import opened Wrappers
  import opened Browser
  import EH = ErrorHandling
  import opened SessionSync

  type ValidationError = EH.ValidationError

  /** App.tsx's own copy of the label table `formKeys`. */
  const FormKeys: seq<EH.FormKey> := [EH.FormKey("email", "The e-mail")]

  /** `s` ends with `suffix`. */
  predicate EndsWith(s: string, suffix: string) {
    |suffix| <= |s| && s[|s| - |suffix|..] == suffix
  }

  /** The callback given to `errors.map` in App.tsx. */
  function FormalizeError(e: ValidationError): (r: ValidationError)
    ensures r.key == e.key
    ensures EndsWith(r.message, e.message)
    ensures e.key == "email" ==> r.message == "The e-mail " + e.message
    ensures e.key != "email" ==> r.message == e.key + " " + e.message
  {
    var r := match EH.FindFormKey(FormKeys, e.key)
      case None => e.(message := e.key + " " + e.message)
      case Some(fk) => e.(message := fk.identifier + " " + e.message);
    assert "The e-mail" + " " == "The e-mail ";
    r
  }

  /**
   * App.tsx's `formalizeErrors`: length, order and keys are kept, and every
   * message ends with the original one behind the label or the raw key.
   */
  function FormalizeErrors(errors: seq<ValidationError>): (r: seq<ValidationError>)
    ensures |r| == |errors|
    ensures forall i | 0 <= i < |errors| ::
      r[i].key == errors[i].key && EndsWith(r[i].message, errors[i].message)
    ensures forall i | 0 <= i < |errors| && errors[i].key == "email" ::
      r[i].message == "The e-mail " + errors[i].message
    ensures forall i | 0 <= i < |errors| && errors[i].key != "email" ::
      r[i].message == errors[i].key + " " + errors[i].message
  {
    EH.MapErrors(FormalizeError, errors)
  }

  /**
   * The two formalizers agree on `email` records; on any other record this
   * one adds `key + " "` in front of what the library version leaves as it is.
   */
  lemma FormalizersCompare(errors: seq<ValidationError>, i: int)
    requires 0 <= i < |errors|
    ensures errors[i].key == "email" ==> FormalizeErrors(errors)[i] == EH.FormalizeErrors(errors)[i]
    ensures errors[i].key != "email" ==>
      FormalizeErrors(errors)[i].key == EH.FormalizeErrors(errors)[i].key &&
      FormalizeErrors(errors)[i].message == errors[i].key + " " + EH.FormalizeErrors(errors)[i].message
  {
  }

  /** The two formalizers give the same list exactly when every key is `email`. */
  lemma FormalizersAgreeIffAllEmail(errors: seq<ValidationError>)
    ensures FormalizeErrors(errors) == EH.FormalizeErrors(errors) <==>
      forall i | 0 <= i < |errors| :: errors[i].key == "email"
  {
    if forall i | 0 <= i < |errors| :: errors[i].key == "email" {
      forall i | 0 <= i < |errors| ensures FormalizeErrors(errors)[i] == EH.FormalizeErrors(errors)[i] {
        FormalizersCompare(errors, i);
      }
    } else {
      var i :| 0 <= i < |errors| && errors[i].key != "email";
      FormalizersCompare(errors, i);
      assert |FormalizeErrors(errors)[i].message| > |EH.FormalizeErrors(errors)[i].message|;
    }
  }

  /** The request `post` sends from `store`, if any. */
  function SubmitRequest(store: map<string, string>, email: string): Option<Request> {
    if SessionKey in store then Some(FormRequest(email, store[SessionKey])) else None
  }

  /**
   * The error list after `post` from `store` and `errors`, given the response
   * `reply` and the `errors` field `body` of its JSON body.
   */
  function ErrorsAfterSubmit(store: map<string, string>, errors: seq<ValidationError>, reply: Response,
                             body: seq<ValidationError>): seq<ValidationError>
  {
    if SessionKey !in store then errors
    else if reply.status == 200 then []
    else FormalizeErrors(body)
  }

  /** Without a stored token, submitting sends nothing and keeps the error list. */
  lemma SubmitWithoutTokenIsNoOp(store: map<string, string>, email: string, errors: seq<ValidationError>, reply: Response,
                                  body: seq<ValidationError>)
    requires SessionKey !in store
    ensures SubmitRequest(store, email) == None
    ensures ErrorsAfterSubmit(store, errors, reply, body) == errors
  {
  }

  /** A submission is one POST to the form endpoint carrying the e-mail and the stored token. */
  lemma SubmitCarriesStoredToken(store: map<string, string>, email: string)
    requires SessionKey in store
    ensures SubmitRequest(store, email).Some?
    ensures SubmitRequest(store, email).value.Method() == POST
    ensures SubmitRequest(store, email).value.Url() == "http://localhost:4000/api/form"
    ensures SubmitRequest(store, email).value.email == email
    ensures SubmitRequest(store, email).value.Headers()["x-token-recaptcha"] == store[SessionKey]
  {
  }

  /** With a token, status 200 empties the error list and any other status shows the formalized body errors. */
  lemma SubmitOutcome(store: map<string, string>, errors: seq<ValidationError>, reply: Response,
                      body: seq<ValidationError>)
    requires SessionKey in store
    ensures reply.status == 200 ==> ErrorsAfterSubmit(store, errors, reply, body) == []
    ensures reply.status != 200 ==> ErrorsAfterSubmit(store, errors, reply, body) == FormalizeErrors(body)
    ensures reply.status != 200 ==>
      |ErrorsAfterSubmit(store, errors, reply, body)| == |body| &&
      forall i | 0 <= i < |body| ::
        ErrorsAfterSubmit(store, errors, reply, body)[i].key == body[i].key &&
        EndsWith(ErrorsAfterSubmit(store, errors, reply, body)[i].message, body[i].message)
  {
  }

  /**
   * After a sync that got a 204 with the CSRF header, a submission goes out
   * carrying exactly the token that header delivered.
   */
  lemma SubmitAfterSyncUsesSessionToken(store: map<string, string>, sync: Response, email: string)
    requires SessionKey !in store
    requires sync.status == 204 && CsrfHeader in sync.headers
    ensures SubmitRequest(SyncedStore(store, sync), email)
      == Some(FormRequest(email, sync.headers[CsrfHeader]))
  {
  }

  /** The state of the `App` component that `post` reads and writes. */
  class AppState {
    var email: string
    var errors: seq<ValidationError>

    /** `useState('')` and `useState([])`. */
    constructor ()
      ensures email == "" && errors == []
    {
      email := "";
      errors := [];
    }

    /**
     * `post()` inside `onSubmit`; `reply` is what the POST would receive and
     * `body` the `errors` field of `await resp.json()`.
     */
    method Post(storage: SessionStorage, network: Network, reply: Response, body: seq<ValidationError>)
      modifies this`errors, network
      ensures network.sent == old(network.sent) +
        (match SubmitRequest(storage.items, email) case None => [] case Some(req) => [req])
      ensures errors == ErrorsAfterSubmit(storage.items, old(errors), reply, body)
    {
      if storage.GetItem(SessionKey).None? {
        return;
      }
      var token := storage.GetItem(SessionKey).GetOr("");
      network.Send(FormRequest(email, token));
      if reply.status == 200 {
        errors := [];
      } else {
        errors := FormalizeErrors(body);
      }
    }
  }
}
