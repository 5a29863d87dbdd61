/** What the four pages of the front end share: the outcome of an API call,
    the error reply of a failed write, its flattening into one message per
    form field, and the alert banner. */
module PageState {
  import opened Outcomes
  import opened Text
  import opened Records

  /** A value under a key of the server's `errors` object: the list of
      messages DRF produces, or a bare string. */
  datatype ErrValue = Many(items: seq<string>) | One(text: string)

  /** The body of an error reply as the page reads it. A missing, null or
      empty `errors` object is the empty list of entries; a missing or null
      `detail` is the empty string (both are falsy where the pages test
      them). Entries keep the order of Object.entries. */
  datatype ErrorData = ErrorData(errors: seq<(string, ErrValue)>, detail: string)

  /** A rejected API call: the exception's message and, when the server
      answered, the body of its reply. */
  datatype Failure = Failure(message: string, response: Option<ErrorData>)

  /** The settled result of an API call. */
  datatype Outcome<T> = Success(value: T) | Failed(failure: Failure)

  /** The form errors shown beside the fields. None stands for a cleared
      entry (null) or an undefined one; both render nothing. */
  type FormErrors = map<string, Option<string>>

  /** A form draft: input name to its current text. */
  type Form = map<string, string>

  datatype AlertKind = SuccessAlert | ErrorAlert
  datatype Alert = Alert(kind: AlertKind, msg: string)

  const GENERAL: string := "_general"

  /** `Array.isArray(v) ? v[0] : v`; the first element of an empty array is
      undefined. */
  function FirstMessage(v: ErrValue): (r: Option<string>)
    ensures v.One? ==> r == Some(v.text)
    ensures v.Many? && v.items != [] ==> r == Some(v.items[0])
    ensures v.Many? && v.items == [] ==> r == None
  {
    match v
    case One(s) => Some(s)
    case Many(xs) => if xs == [] then None else Some(xs[0])
  }

  /** The `flat` object after the forEach over the first entries: each key
      holds the first message of its value, a later entry overwriting an
      earlier one with the same key. */
  function FlatOf(entries: seq<(string, ErrValue)>): FormErrors
    decreases |entries|
  {
    if entries == [] then map[]
    else
      var last := entries[|entries| - 1];
      FlatOf(entries[..|entries| - 1])[last.0 := FirstMessage(last.1)]
  }

  /** The flattened object has exactly the keys of the server's object. */
  lemma {:induction false} FlatOfKeys(entries: seq<(string, ErrValue)>)
    ensures FlatOf(entries).Keys == set i | 0 <= i < |entries| :: entries[i].0
    decreases |entries|
  {
    if entries != [] {
      var init := entries[..|entries| - 1];
      FlatOfKeys(init);
      var s := set i | 0 <= i < |entries| :: entries[i].0;
      var t := set i | 0 <= i < |init| :: init[i].0;
      forall k | k in s ensures k in t + {entries[|entries| - 1].0} {
        var i :| 0 <= i < |entries| && entries[i].0 == k;
        if i < |init| {
          assert init[i].0 == k;
        }
      }
      forall k | k in t ensures k in s {
        var i :| 0 <= i < |init| && init[i].0 == k;
        assert entries[i].0 == k;
      }
    }
  }

  /** Keys of a JSON object are distinct. */
  predicate DistinctKeys(entries: seq<(string, ErrValue)>) {
    forall i, j :: 0 <= i < j < |entries| ==> entries[i].0 != entries[j].0
  }

  /** With distinct keys, each key of the flattened object holds the first
      message of that key's value. */
  lemma {:induction false} FlatOfValues(entries: seq<(string, ErrValue)>)
    requires DistinctKeys(entries)
    ensures forall i :: 0 <= i < |entries| ==>
              entries[i].0 in FlatOf(entries) && FlatOf(entries)[entries[i].0] == FirstMessage(entries[i].1)
    decreases |entries|
  {
    if entries != [] {
      var n := |entries| - 1;
      var init := entries[..n];
      FlatOfValues(init);
      forall i | 0 <= i < |entries|
        ensures entries[i].0 in FlatOf(entries) && FlatOf(entries)[entries[i].0] == FirstMessage(entries[i].1)
      {
        if i < n {
          assert init[i] == entries[i];
          assert entries[i].0 != entries[n].0;
        }
      }
    }
  }

  /** Builds the flattened object entry by entry, as the forEach does. */
  method Flatten(entries: seq<(string, ErrValue)>) returns (flat: FormErrors)
    ensures flat == FlatOf(entries)
  {
    flat := map[];
    var i := 0;
    while i < |entries|
      invariant 0 <= i <= |entries|
      invariant flat == FlatOf(entries[..i])
    {
      assert entries[..i + 1][..i] == entries[..i];
      flat := flat[entries[i].0 := FirstMessage(entries[i].1)];
      i := i + 1;
    }
    assert entries[..i] == entries;
  }

  /** The entries of `err.response?.data?.errors || {}`. */
  function ServerErrors(f: Failure): seq<(string, ErrValue)> {
    if f.response.Some? then f.response.value.errors else []
  }

  /** `err.response?.data?.detail || fallback` */
  function DetailOr(f: Failure, fallback: string): (r: string)
    ensures f.response.Some? && f.response.value.detail != "" ==> r == f.response.value.detail
    ensures f.response.None? || f.response.value.detail == "" ==> r == fallback
  {
    if f.response.Some? && f.response.value.detail != "" then f.response.value.detail else fallback
  }

  /** The form errors after a failed write, as the employees and attendance
      pages compute them: the flattened server errors when there are any,
      otherwise one general message. */
  function SubmitErrors(f: Failure, fallback: string): (r: FormErrors)
    ensures r.Keys != {}
    ensures ServerErrors(f) == [] ==> r.Keys == {GENERAL}
    ensures ServerErrors(f) != [] ==> r.Keys == set i | 0 <= i < |ServerErrors(f)| :: ServerErrors(f)[i].0
  {
    FlatOfKeys(ServerErrors(f));
    assert ServerErrors(f) != [] ==> ServerErrors(f)[0].0 in FlatOf(ServerErrors(f));
    if |ServerErrors(f)| > 0 then FlatOf(ServerErrors(f))
    else
      var general := map[GENERAL := Some(DetailOr(f, fallback))];
      assert GENERAL in general;
      general
  }

  /** The same, as the per-employee page computes it: flattening first and
      testing the flattened object for keys. */
  function SubmitErrorsViaFlat(f: Failure, fallback: string): FormErrors {
    var flat := FlatOf(ServerErrors(f));
    if |flat.Keys| > 0 then flat else map[GENERAL := Some(DetailOr(f, fallback))]
  }

  /** What the form shows after a failed write: with server errors, exactly
      their keys, each with the first message of its value; without, only
      the general message, which is the server's detail or the fallback. */
  lemma SubmitErrorsShown(f: Failure, fallback: string)
    requires DistinctKeys(ServerErrors(f))
    ensures var r := SubmitErrors(f, fallback);
            var entries := ServerErrors(f);
            && (entries != [] ==>
                  && r.Keys == (set i | 0 <= i < |entries| :: entries[i].0)
                  && forall i :: 0 <= i < |entries| ==> r[entries[i].0] == FirstMessage(entries[i].1))
            && (entries == [] ==> r.Keys == {GENERAL} && r[GENERAL] == Some(DetailOr(f, fallback)))
  {
    FlatOfKeys(ServerErrors(f));
    FlatOfValues(ServerErrors(f));
  }

  /** Testing the flattened object instead of the server's object gives the
      same form errors. */
  lemma SubmitErrorsAgree(f: Failure, fallback: string)
    ensures SubmitErrorsViaFlat(f, fallback) == SubmitErrors(f, fallback)
  {
    var entries := ServerErrors(f);
    FlatOfKeys(entries);
    if entries != [] {
      assert entries[0].0 in FlatOf(entries).Keys;
    }
  }

  /** handleChange: the named input takes the new text and its error is
      cleared; every other input and error is left as it was. */
  function ChangeForm(form: Form, name: string, value: string): (r: Form)
    ensures name in r && r[name] == value
    ensures forall k :: k != name ==> (k in r <==> k in form)
    ensures forall k :: k != name && k in form ==> r[k] == form[k]
  {
    form[name := value]
  }

  function ClearError(errors: FormErrors, name: string): (r: FormErrors)
    ensures name in r && r[name] == None
    ensures forall k :: k != name ==> (k in r <==> k in errors)
    ensures forall k :: k != name && k in errors ==> r[k] == errors[k]
  {
    errors[name := None]
  }

  /** A template literal's rendering of `form.<name>`: "undefined" when the
      input has never been set. */
  function FieldText(form: Form, name: string): string {
    if name in form then form[name] else "undefined"
  }

  /** The request body of a form: every input as a JSON string. */
  function FormBody(form: Form): (b: Body)
    ensures b.Keys == form.Keys
    ensures forall k :: k in form ==> b[k] == Str(form[k])
  {
    map k | k in form :: Str(form[k])
  }

  /** `parseInt(text)` as it appears in a JSON request body: a number, or
      null for NaN; never a string. */
  function IntValue(text: string): (v: Value)
    ensures v == Null <==> ParseIntPrefix(text).None?
    ensures v != Null ==> v == Num(ParseIntPrefix(text).value)
  {
    match ParseIntPrefix(text)
    case Some(n) => Num(n)
    case None => Null
  }
}
