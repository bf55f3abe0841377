/** JavaScript value conventions the generator relies on: `undefined`, truthiness,
    the `||` operator and the TypeError thrown by dereferencing `undefined`. */
module Js {

  /** An optional JSON/JavaScript value: `None` is `undefined`. */
  datatype Option<+T> = None | Some(value: T) {
    function GetOr(fallback: T): (r: T)
      ensures Some? ==> r == value
      ensures None? ==> r == fallback
    {
      match this
      case Some(v) => v
      case None => fallback
    }
  }

  /** The outcome of an evaluation that may throw: `TypeError` is the exception raised
      when the code dereferences `undefined` (`a.components!.map`, `enum!.forEach`). */
  datatype Result<+T> = Ok(value: T) | TypeError

  /** A possibly-undefined string is truthy exactly when it is defined and not empty. */
  predicate Truthy(s: Option<string>) {
    s.Some? && s.value != ""
  }

  /** A possibly-undefined boolean is truthy exactly when it is `true`. */
  predicate IsTrue(b: Option<bool>) {
    b == Some(true)
  }

  /** A possibly-undefined integer is truthy exactly when it is defined and not zero. */
  predicate NumTruthy(n: Option<int>) {
    n.Some? && n.value != 0
  }

  /** `a || b` on possibly-undefined strings: the first operand when it is truthy,
      otherwise the second one, whatever it is. */
  function Or(a: Option<string>, b: Option<string>): (r: Option<string>)
    ensures Truthy(a) ==> r == a
    ensures !Truthy(a) ==> r == b
    ensures Truthy(r) <==> Truthy(a) || Truthy(b)
  {
    if Truthy(a) then a else b
  }

  /** `answer || fallback`, where `answer` is what an override callback returned: a
      truthy answer wins, a falsy one (`undefined`, `""`) defers to the fallback. */
  function OrElse(answer: Option<string>, fallback: string): (r: string)
    ensures Truthy(answer) ==> r == answer.value
    ensures !Truthy(answer) ==> r == fallback
    ensures r != "" <==> Truthy(answer) || fallback != ""
  {
    if Truthy(answer) then answer.value else fallback
  }

  /** The text a template literal `${v}` produces for a possibly-undefined string. */
  function TemplateText(s: Option<string>): (r: string)
    ensures s.Some? ==> r == s.value
    ensures s.None? ==> r == "undefined"
  {
    match s
    case Some(v) => v
    case None => "undefined"
  }
}
