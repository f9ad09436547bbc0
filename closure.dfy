/** The closure record (my-js/closure.js): an environment, a body and the
    argument list, tagged with the type `"closure"`. */
module Closures {

  datatype Closure<E, T> = Closure(env: E, body: T, args: T) {

    /** The record's type tag. */
    function Type(): string {
      "closure"
    }

    function GetBody(): T {
      body
    }

    function GetArgs(): T {
      args
    }
  }

  /** `closure(env, body, args)`: a record that hands back exactly what it was
      built from. */
  function NewClosure<E, T>(env: E, body: T, args: T): (c: Closure<E, T>)
    ensures c.Type() == "closure"
    ensures c.env == env && c.GetBody() == body && c.GetArgs() == args
  {
    Closure(env, body, args)
  }
}
