// S-expressions, without their source locations.
module Sexprs {

  // The reader makes no empty symbols.
  type Symbol = s: string | s != "" witness "x"

  datatype Sexpr =
    | Int(n: int)
    | Real(text: string)
    | Char(c: char)
    | Str(s: string)
    | Sym(id: Symbol)
    | List(items: seq<Sexpr>)
}
