/** The error body both services return (`ApiError`) and the field-error merge
    fold their exception handlers share. */
module ApiErrors {
  import opened Wrappers
  import opened JavaText
  import Numerals

  /** A binding-result field error: field name and default message (may be null). */
  datatype FieldError = FieldError(field: string, message: Option<string>)

  /** A bean-validation constraint violation: property path and message. */
  datatype Violation = Violation(path: string, message: string)

  datatype ApiError = ApiError(errorMessage: string, details: Option<map<string, Option<string>>>, errorCode: string)

  datatype Response = Response(status: int, body: ApiError)

  /** Both `buildErrorResponse` overloads: the error code is the decimal status. */
  function BuildErrorResponse(status: nat, message: string, details: Option<map<string, Option<string>>>): (r: Response)
    ensures r.status == status && r.body.errorMessage == message && r.body.details == details
    ensures Numerals.AllDigits(r.body.errorCode) && Numerals.Value(r.body.errorCode) == status
  {
    Numerals.ValueOfDecimal(status);
    Response(status, ApiError(message, details, Numerals.Decimal(status)))
  }

  /** A message that the merge lets replace an earlier one. */
  predicate IsRequiredMessage(m: Option<string>) {
    m.Some? && Contains(m.value, "is required")
  }

  /** The error at index `i` is the first one for its field. */
  predicate IsFirstFor(errors: seq<FieldError>, i: int)
    requires 0 <= i < |errors|
  {
    forall j :: 0 <= j < i ==> errors[j].field != errors[i].field
  }

  /** An error whose message the merge writes into the map. */
  predicate Wins(errors: seq<FieldError>, i: int)
    requires 0 <= i < |errors|
  {
    IsFirstFor(errors, i) || IsRequiredMessage(errors[i].message)
  }

  /** Reference definition: index of the last error for `f` that wins, or -1. */
  function LastWinner(errors: seq<FieldError>, f: string): (i: int)
    ensures -1 <= i < |errors|
    ensures i >= 0 ==> errors[i].field == f && Wins(errors, i)
    ensures forall j :: i < j < |errors| && errors[j].field == f ==> !Wins(errors, j)
  {
    if |errors| == 0 then -1
    else if errors[|errors| - 1].field == f && Wins(errors, |errors| - 1) then |errors| - 1
    else
      var p := errors[..|errors| - 1];
      var i := LastWinner(p, f);
      assert forall j :: 0 <= j < |p| ==> (Wins(p, j) <==> Wins(errors, j));
      i
  }

  /** The handlers' loop over the field errors: the first message per field is
      kept, and a later one replaces it only if it contains "is required". */
  function MergeFieldErrors(errors: seq<FieldError>): (details: map<string, Option<string>>)
    ensures details.Keys == set e | e in errors :: e.field
  {
    if |errors| == 0 then map[]
    else
      var d := MergeFieldErrors(errors[..|errors| - 1]);
      var e := errors[|errors| - 1];
      assert errors == errors[..|errors| - 1] + [e];
      if e.field in d then
        (if IsRequiredMessage(e.message) then d[e.field := e.message] else d)
      else d[e.field := e.message]
  }

  /** Whether an error wins depends only on the errors up to it. */
  lemma WinsInPrefix(errors: seq<FieldError>, k: int)
    requires 0 <= k <= |errors|
    ensures forall j :: 0 <= j < k ==> (Wins(errors[..k], j) <==> Wins(errors, j))
  {
    forall j | 0 <= j < k
      ensures Wins(errors[..k], j) <==> Wins(errors, j)
    {
      assert forall i :: 0 <= i <= j ==> errors[..k][i] == errors[i];
    }
  }

  /** The fold agrees with the reference definition: each field maps to the
      message of its last winning error. */
  lemma {:induction false} MergeIsLastWinner(errors: seq<FieldError>, f: string)
    requires f in MergeFieldErrors(errors)
    ensures LastWinner(errors, f) >= 0
    ensures MergeFieldErrors(errors)[f] == errors[LastWinner(errors, f)].message
  {
    var n := |errors|;
    var p := errors[..n - 1];
    var e := errors[n - 1];
    var d := MergeFieldErrors(p);
    WinsInPrefix(errors, n - 1);
    if e.field == f {
      if f in d {
        MergeIsLastWinner(p, f);
        var k := LastWinner(p, f);
        assert errors[k].field == f;
        assert !IsFirstFor(errors, n - 1);
        if !IsRequiredMessage(e.message) {
          assert LastWinner(errors, f) == LastWinner(p, f);
        }
      } else {
        assert forall j :: 0 <= j < n - 1 ==> errors[j].field != f by {
          forall j | 0 <= j < n - 1
            ensures errors[j].field != f
          {
            assert p[j] in p;
          }
        }
        assert IsFirstFor(errors, n - 1);
      }
    } else {
      MergeIsLastWinner(p, f);
    }
  }

  /** A field with an "is required" message reports such a
      message, whatever order the errors arrive in. */
  lemma RequiredMessageWins(errors: seq<FieldError>, j: int)
    requires 0 <= j < |errors| && IsRequiredMessage(errors[j].message)
    ensures errors[j].field in MergeFieldErrors(errors)
    ensures IsRequiredMessage(MergeFieldErrors(errors)[errors[j].field])
  {
    var f := errors[j].field;
    assert errors[j] in errors;
    MergeIsLastWinner(errors, f);
    var i := LastWinner(errors, f);
    assert Wins(errors, j);
    assert i >= j;
    if i > j {
      assert errors[j].field == errors[i].field;
      assert !IsFirstFor(errors, i);
    }
    assert IsRequiredMessage(errors[i].message);
  }

  /** Errors of one field disagree only as an "is required" message against
      a message without it. */
  predicate OrderFree(errors: seq<FieldError>) {
    forall x, y :: x in errors && y in errors && x.field == y.field && x.message != y.message
      ==> IsRequiredMessage(x.message) != IsRequiredMessage(y.message)
  }

  /** Every error belongs to one of the fields `fs`. */
  predicate FieldsWithin(errors: seq<FieldError>, fs: set<string>) {
    forall e :: e in errors ==> e.field in fs
  }

  /** Appending the errors of a new field keeps the list free of ties. */
  lemma AppendField(a: seq<FieldError>, fs: set<string>, b: seq<FieldError>, f: string)
    requires OrderFree(a) && FieldsWithin(a, fs)
    requires OrderFree(b) && FieldsWithin(b, {f}) && f !in fs
    ensures OrderFree(a + b) && FieldsWithin(a + b, fs + {f})
  {
  }

  /** Without conflicting messages a field reports its "is required" message
      when it has one, and otherwise its only message. */
  lemma MergeOfOrderFree(errors: seq<FieldError>, e: FieldError)
    requires OrderFree(errors) && e in errors
    requires IsRequiredMessage(e.message) || forall x :: x in errors && x.field == e.field ==> !IsRequiredMessage(x.message)
    ensures e.field in MergeFieldErrors(errors) && MergeFieldErrors(errors)[e.field] == e.message
  {
    var f := e.field;
    MergeIsLastWinner(errors, f);
    var i := LastWinner(errors, f);
    var w := errors[i];
    assert w in errors;
    var j :| 0 <= j < |errors| && errors[j] == e;
    if IsRequiredMessage(e.message) {
      assert Wins(errors, j);
      assert j <= i;
      if j < i {
        assert !IsFirstFor(errors, i);
      }
    } else {
      assert !IsRequiredMessage(w.message);
    }
  }

  /** Under `OrderFree` the details map is the same for every order of the
      field errors. */
  lemma MergePermutationInvariant(a: seq<FieldError>, b: seq<FieldError>)
    requires multiset(a) == multiset(b) && OrderFree(a)
    ensures MergeFieldErrors(a) == MergeFieldErrors(b)
  {
    assert forall x :: x in a <==> x in b by {
      forall x ensures x in a <==> x in b {
        assert x in a <==> x in multiset(a);
        assert x in b <==> x in multiset(b);
      }
    }
    var ma, mb := MergeFieldErrors(a), MergeFieldErrors(b);
    forall f | f in ma
      ensures f in mb && ma[f] == mb[f]
    {
      var e :| e in a && e.field == f;
      if exists x :: x in a && x.field == f && IsRequiredMessage(x.message) {
        e :| e in a && e.field == f && IsRequiredMessage(e.message);
      }
      MergeOfOrderFree(a, e);
      MergeOfOrderFree(b, e);
    }
  }

  /** The metadata-violation handler's map: property path to message, a later
      violation of the same path overwriting an earlier one. */
  function ViolationDetails(vs: seq<Violation>): (d: map<string, Option<string>>)
    ensures d.Keys == set v | v in vs :: v.path
    ensures forall p :: p in d ==> d[p].Some? && Violation(p, d[p].value) in vs
    ensures |vs| > 0 ==> d[vs[|vs| - 1].path] == Some(vs[|vs| - 1].message)
  {
    if |vs| == 0 then map[]
    else
      var v := vs[|vs| - 1];
      assert vs == vs[..|vs| - 1] + [v];
      ViolationDetails(vs[..|vs| - 1])[v.path := Some(v.message)]
  }
}
