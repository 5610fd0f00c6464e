# bool_like, modelled in Dafny

`bool_like` is a Rust attribute macro for an enum with exactly two variants.
It emits an `impl Not` that maps each variant to the other. One variant may
carry the `#[into_false]` sub-attribute. When one does, the macro also emits
`From<Enum> for bool` and `From<bool> for Enum`. The marked variant stands for
`false` and the other variant for `true`. The macro rejects a struct, a union,
or an enum whose variant count is not two. In both cases it aborts compilation
and emits nothing.

The project models this in four modules:

- `Syntax` (syntax.dfy): the parsed item as a value. It holds the item's
  attributes, its name, and its body (an enum with its variants, a struct, or a
  union). Each variant has an identifier and an ordered attribute list.
- `Markers` (markers.dfy): how `#[into_false]` is recognised (a bare
  single-segment path, as `Path::is_ident` checks), the filter that drops it
  from an attribute list, and the index of the first variant that carries it.
- `Generated` (generated.dfy): what the emitted `not`, `bool::from` and
  `Enum::from` compute, plus their algebraic laws. An enum value is named by
  its variant's identifier.
- `BoolLike` (bool_like.dfy): `Expand` is the whole transformation written as
  a function. `BoolLike` is the macro body itself: early returns for the two
  panics, then the nested scan loop with its `break`s, then the in-place
  stripping. It is proved to compute `Expand`. Lemmas about `Expand` give the
  transformation's guarantees. The module `Examples` restates the crate's doc
  examples (`Player`, and `Answer` marked on its first variant) and its tests
  (`Answer` marked on its second variant).

Two details of the code decide the model's shape:

- `NotTwoVariants` carries no count, because the arity panic
  (src/lib.rs:72) does not report one.
- When both variants are marked, only the first is honoured and only its
  markers are removed (src/lib.rs:77-92). The second variant keeps its
  `#[into_false]` in the re-emitted item.

## Model

| member | source | states |
|---|---|---|
| `Markers.RemoveMarkers` | src/lib.rs:85-90 | the stripped list holds exactly the non-marker attributes of the original, so no `#[into_false]` is left, and it is no longer than the original |
| `Markers.RemoveMarkersAppend` | src/lib.rs:85-90 | stripping distributes over concatenation, so the kept attributes stay in their original relative order |
| `Markers.RemoveMarkersCount` | src/lib.rs:85-90 | each non-marker attribute keeps its multiplicity and each marker occurs zero times afterwards |
| `Markers.RemoveMarkersUnchanged` | src/lib.rs:85-90 | stripping leaves a list unchanged if and only if it carries no marker |
| `Markers.RemoveMarkersIdempotent` | src/lib.rs:85-90 | stripping twice is the same as stripping once |
| `Markers.FirstMarked` | src/lib.rs:76-93 | the result is the index of a marked variant with no marked variant before it, and it is None exactly when no variant is marked |
| `Markers.FirstMarkedAt` | src/lib.rs:77-83 | a marked variant at position i with none marked before it is the one the scan selects |
| `Generated.Not` | src/lib.rs:107-110 | negation maps a variant of the enum to a variant of the enum, and to a different one when the two names differ |
| `Generated.ToBool` | src/lib.rs:118-125 | the conversion to `bool` is false only for the marked variant; its meaning is stated by `ToBoolMarked` and `ToBoolNot` |
| `Generated.FromBool` | src/lib.rs:127-135 | the conversion from `bool` always yields one of the enum's two variants |
| `Generated.NotSwaps` | src/lib.rs:107-110 | `!first == second` and `!second == first` |
| `Generated.NotInvolution` | src/lib.rs:107-110 | `!!x == x` for both variants |
| `Generated.ToBoolMarked` | src/lib.rs:118-125 | `bool::from(x)` is false exactly for the marked variant, and true for its negation |
| `Generated.FromBoolValues` | src/lib.rs:127-134 | `Enum::from(false)` is the marked variant and `Enum::from(true)` is its negation |
| `Generated.FromBoolToBool` | src/lib.rs:116-137 | `Enum::from(bool::from(x)) == x` |
| `Generated.ToBoolFromBool` | src/lib.rs:116-137 | `bool::from(Enum::from(b)) == b` |
| `Generated.ToBoolNot` | src/lib.rs:103-137 | `bool::from(!x) == !bool::from(x)` |
| `Generated.FromBoolNot` | src/lib.rs:103-137 | `Enum::from(!b) == !Enum::from(b)` |
| `Generated.OrderIrrelevant` | src/lib.rs:99-134 | listing the variants in the other order gives the same negation and the same conversion from `bool` |
| `BoolLike.StripAt` | src/lib.rs:84-91 | the chosen variant keeps its identifier and loses its markers, and every other variant is untouched |
| `BoolLike.Expand` | src/lib.rs:66-73 | a struct or union gives `NotAnEnum` whatever its shape, an enum with other than two variants gives `NotTwoVariants`, and output is produced exactly for two-variant enums |
| `BoolLike.BoolLike` | src/lib.rs:62-147 | the macro body with its scan loops computes exactly `Expand` |
| `BoolLike.ExpandKeepsDeclaration` | src/lib.rs:95-113 | the item is re-emitted with the same name, item attributes and variant identifiers in order, and `Not` pairs the first declared variant with the second |
| `BoolLike.ExpandChoosesFirstMarked` | src/lib.rs:76-93 | conversions are emitted exactly when some variant is marked, and they key on the first marked variant in declaration order |
| `BoolLike.ExpandStripsOnlyChosen` | src/lib.rs:84-93 | only the chosen variant loses its markers; the other variant, including any marker on it, is re-emitted as declared; with no marker the item is unchanged |
| `BoolLike.ExpandWellFormed` | src/lib.rs:116-135 | the emitted conversions belong to the same type and key on one of its two variants |
| `BoolLike.ExpandConversionsConsistent` | src/lib.rs:103-137 | for an accepted enum with a marker and two distinct variant names, the emitted impls satisfy `bool::from(!x) == !bool::from(x)` and `Enum::from(bool::from(x)) == x` |
| `BoolLike.MarkerPositionIrrelevant` | src/lib.rs:99-137 | with exactly one marked variant, reversing the declaration order gives the same conversions and the same negation |
| `Examples.PlayerExample` | tests/test.rs:4-15 | `Player { Black, White }` gets only `Not`, swapping the two |
| `Examples.AnswerExample` | tests/test.rs:17-34 | `Answer { Yes, #[into_false] No }`: the marker is removed, `No` converts to false, `Yes` to true, and back |
| `Examples.AnswerDocExample` | src/lib.rs:35-51 | `Answer { #[into_false] No, Yes }`: the marker is removed, `!No == Yes`, `!Yes == No`, `No` converts to false, `Yes` to true, and back |
| `Examples.RejectedExamples` | src/lib.rs:67-73 | a struct is rejected as not an enum; a three-variant enum is rejected for its arity |

## Left out

- Token handling: parsing the input with `parse_macro_input!` and emitting with `quote!`. The parsed item is a datatype and the emitted impls are datatypes with Dafny functions for their meaning.
- The panic messages, and the fact that a panic in a procedural macro becomes a compile error. The two panics are the error values `NotAnEnum` and `NotTwoVariants`.
- The unused `_attr` argument.
- Visibility, generics, variant fields and discriminants. The macro passes them through without looking at them. What rustc then makes of the emitted impls for a generic or data-carrying enum is outside this code.
- Generic arguments on an attribute path segment, which `Path::is_ident` also rejects. A path here is a leading-`::` flag and a list of identifiers.
- Rustc's own checks. It rejects duplicate variant names, so the laws that need two distinct variants take that as a precondition. It also rejects a stray `#[into_false]` left on the second of two marked variants.
