/**
 * The request-validation pattern the three validator files share: a list of
 * field checks, each with its own message, run in order; the middleware that
 * follows them answers 400 with the first failing check's message, or passes
 * the request on. A field the request does not carry reads as the empty text.
 */
module Validation {

  /** The request fields the checks look at, by name. */
  type Fields = map<string, string>

  /** The text a check sees for a field: the empty text when the field is absent. */
  function FieldText(fields: Fields, name: string): string {
    if name in fields then fields[name] else ""
  }

  /** One check: a minimum length, or a library predicate such as `isEmail` or `isURL`. */
  datatype Check =
    | MinLength(field: string, min: nat, message: string)
    | Satisfies(field: string, holds: string -> bool, message: string)

  predicate Passes(c: Check, fields: Fields) {
    match c
    case MinLength(f, min, _) => |FieldText(fields, f)| >= min
    case Satisfies(f, holds, _) => holds(FieldText(fields, f))
  }

  /** The messages of the failing checks, in check order. */
  function Errors(checks: seq<Check>, fields: Fields): (messages: seq<string>)
    ensures |messages| <= |checks|
    ensures messages == [] <==> forall i | 0 <= i < |checks| :: Passes(checks[i], fields)
    decreases |checks|
  {
    if checks == [] then []
    else
      var rest := Errors(checks[1..], fields);
      if Passes(checks[0], fields) then rest else [checks[0].message] + rest
  }

  /** What `isRequestValidated` does: call `next`, or answer 400 `{ errors: message }`. */
  datatype Decision = Next | BadRequest(message: string)

  /** `isRequestValidated`: the first error's message wins; no error lets the request through. */
  function IsRequestValidated(errors: seq<string>): (d: Decision)
    ensures d.Next? <==> errors == []
    ensures errors != [] ==> d == BadRequest(errors[0])
  {
    if errors == [] then Next else BadRequest(errors[0])
  }

  /** The outcome the checks imply on their own: the first failing check's message, if any. */
  function FirstFailure(checks: seq<Check>, fields: Fields): Decision
    decreases |checks|
  {
    if checks == [] then Next
    else if !Passes(checks[0], fields) then BadRequest(checks[0].message)
    else FirstFailure(checks[1..], fields)
  }

  /** Collecting every error and then answering the first is the same as stopping at the first failing check. */
  lemma {:induction false} ValidatedIsFirstFailure(checks: seq<Check>, fields: Fields)
    ensures IsRequestValidated(Errors(checks, fields)) == FirstFailure(checks, fields)
    decreases |checks|
  {
    if checks != [] {
      ValidatedIsFirstFailure(checks[1..], fields);
    }
  }

  /**
   * The check that decides a rejection is the first one that fails: every
   * check before it passes, and its message is the one answered.
   */
  lemma {:induction false} FirstFailureWins(checks: seq<Check>, fields: Fields, i: nat)
    requires i < |checks| && !Passes(checks[i], fields)
    requires forall j | 0 <= j < i :: Passes(checks[j], fields)
    ensures IsRequestValidated(Errors(checks, fields)) == BadRequest(checks[i].message)
    decreases i
  {
    if i > 0 {
      FirstFailureWins(checks[1..], fields, i - 1);
    }
  }
}
