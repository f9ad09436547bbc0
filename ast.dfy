/** The tagged tree the reader builds and the printer consumes: the
    `{type, value}` records of my-js/ast.js, one constructor per tag. */
module Ast {
  import opened Closures
  import opened Environment

  /** The built-in operations that `function` nodes carry (my-js/core.js). */
  datatype Primitive = Add | Subtract | Multiply | ListOf

  datatype Node =
    | List(items: seq<Node>)
    | Vector(items: seq<Node>)
    | Hashmap(items: seq<Node>)
    | Quote(inner: Node)
    | Quasiquote(inner: Node)
    | Unquote(inner: Node)
    | SpliceUnquote(inner: Node)
    | Deref(inner: Node)
      /** `^meta form`: the two forms in the order they were read. */
    | WithMeta(first: Node, second: Node)
    | Number(value: int)
    | Boolean(flag: bool)
      /** A string literal, kept with its quotes. */
    | Str(text: string)
    | Symbol(name: string)
    | ClosureNode(closure: Closure<Env<Node>, Node>)
    | Def(name: string)
    | Function(primitive: Primitive)
  {
    predicate IsContainer() {
      List? || Vector? || Hashmap?
    }

    predicate IsQuoteForm() {
      Quote? || Quasiquote? || Unquote? || SpliceUnquote? || Deref?
    }
  }
}
