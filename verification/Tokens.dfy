/** Tokens. A source byte is a `char`. */
module Tokens {
  import opened Words

  datatype Kind =
    | Dot | At | Mygo | Go | Walrus | And | Not | Or | True | False
    | Var | Const | Struct | For | If | Else | Typedef
    | Equal | Less | Greater | Assign | Plus | Sub | Star | Slash
    | Func | Return
    | LBrace | RBrace | LParent | RParent | Comma | Colon | Semicolon
    | Space | Int | Float | Str | Symbol | Enl | Enf

  /** A token: one that is no more than its kind, or one with data (for a float, its
      digits). */
  datatype Token =
    | Plain(k: Kind)
    | IntToken(i: i32)
    | FloatToken(digits: string)
    | StrToken(s: string)
    | SymToken(s: string)
  {
    function Kind(): Kind {
      match this
      case Plain(k) => k
      case IntToken(_) => Int
      case FloatToken(_) => Float
      case StrToken(_) => Str
      case SymToken(_) => Symbol
    }

    /** The string data, empty for every token but a string and a symbol. */
    function Text(): string {
      if StrToken? || SymToken? then s else ""
    }
  }
}
