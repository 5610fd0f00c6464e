/**
 The part of a parsed Rust item that the `bool_like` attribute looks at.

 The macro receives the annotated item as a token stream and parses it into a
 derive-style input: the item's own attributes, its name, and its body, which
 is an enum (a list of variants), a struct or a union. Each enum variant has an
 identifier and an ordered list of attributes. Token streams themselves are not
 modelled; these datatypes stand for the parsed form.
 */
module Syntax {

  /** The conventional optional value. */
  datatype Option<+T> = None | Some(value: T)

  /** A Rust identifier. */
  type Ident = string

  /**
   The path of an attribute: `#[into_false]` has the path with one segment
   `into_false` and no leading `::`; `#[serde::rename]` has two segments.
   */
  datatype Path = Path(leadingColon: bool, segments: seq<Ident>)

  /** An outer attribute `#[path tokens]` on an item or a variant. */
  datatype Attr = Attr(path: Path, tokens: string)

  /** An enum variant: its attributes, in source order, and its identifier. */
  datatype Variant = Variant(attrs: seq<Attr>, ident: Ident)

  /** The body of the annotated item. */
  datatype Data = Enum(variants: seq<Variant>) | Struct | Union

  /** The annotated item: its own attributes, its name, and its body. */
  datatype Decl = Decl(attrs: seq<Attr>, ident: Ident, data: Data)

  /**
   True when `p` is the bare identifier `name`: no leading `::` and a single
   segment equal to `name`.
   */
  predicate IsIdent(p: Path, name: Ident)
  {
    !p.leadingColon && |p.segments| == 1 && p.segments[0] == name
  }
}
