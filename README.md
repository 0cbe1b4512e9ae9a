# compatible-with, modelled in Dafny

`compatible-with` lets a persisted Rust type change shape across versions
without a version tag on the wire. The user writes one conversion from the old
version to the current one and wraps the field in `Compatible<Old, Current>`.
The adapter's decoder tries the old shape first and the current shape second.
It converts an old value at once, so the program only ever sees the current
version. The encoder re-emits whichever case the adapter holds, so data written
back is in the current shape.

This project models that adapter (`src/lib.rs`) and proves what it promises.

- `Conversion`: the contract pair `CompatibleWith::from_old` and
  `CompatibleTo::into_current`, and the blanket impls that derive both from a
  single user conversion. The user conversion is a total function. It is given
  either as a `From` impl or as a hand-written `CompatibleWith` impl.
- `Untagged`: what an untagged enum decoder does. Candidates are tried in
  declaration order, the first one that accepts wins, and the decode fails
  only when all of them reject. This is the reference definition that `Alt`'s
  decoder is proved equal to.
- `Compat`: `Alt`, `Compatible`, `into_current`, and `make_current`. The last
  is a method that rebinds the held case, proved against the normaliser
  `Normalized`. The module also has the `Deserialize`/`Serialize` impls,
  `deserialize_with`, the impl the `CompatibleWith` derive macro generates,
  and the round-trip, upgrade, collision and self-healing lemmas.
- `Nesting`: `Compatible<Compatible<A, B>, C>`, which is the generic decoder
  with the inner adapter's decoder as its old decoder. It proves the composed
  upgrade of a three-version chain, and that distinguishable shapes keep
  round-tripping through the nesting.
- `DirTree`: the records of `test_complex` and the conversion
  `From<Vec<Dir>> for DirNode`. The conversion is a method that extends the
  root's children one record at a time, proved against the function `Rooted`.
- `Wire`, `Scenarios`: a minimal JSON-like wire value, and the source's tests
  replayed on it.

The serde engine is a parameter. A decoder of `T` from wire values `W` is a
partial function `W -> Option<T>`, where `None` is the single
structural-mismatch failure. An encoder is a total function `T -> W`.

## Model

| member | source | states |
|---|---|---|
| `Conversion.DerivationAgrees` | src/lib.rs:32-48 | `CompatibleTo::into_current(old)` equals `CompatibleWith::from_old(old)`, and both equal the one conversion the user wrote; when it was written as `From`, both equal `old.into()` |
| `Compat.IntoCurrentCases` | src/lib.rs:74-79 | `into_current` returns a held `Current(c)` as `c` unchanged, and a held `Old(o)` as the user's conversion of `o` |
| `Compat.Compatible.Normalized` | src/lib.rs:81-86 | after normalising, the adapter holds `Current` of exactly what `into_current` gives; an adapter already holding `Current` comes back unchanged |
| `Compat.Compatible.MakeCurrent` | src/lib.rs:81-86 | the returned adapter holds `Current`; one already holding `Current` is returned as it was; `into_current` gives the same value before and after; the result is the normaliser's value |
| `Compat.NormalizedIdempotent` | src/lib.rs:74-86 | normalising twice equals normalising once, and `into_current` of the normalised adapter equals `into_current` of the original |
| `Untagged.FirstMatchSpec` | src/lib.rs:89-95 | an untagged decode fails exactly when every candidate rejects the input; otherwise its value is that of the earliest accepting candidate, every earlier candidate having rejected |
| `Compat.DecodeAltIsFirstMatch` | src/lib.rs:89-95 | `Alt`'s derived decoder is the untagged first-match over its variants in declaration order, `Old` then `Current` |
| `Compat.Decode` | src/lib.rs:97-110 | decode fails exactly when both decoders reject; a decoded adapter always holds `Current`; if the old decoder accepts, the result is the converted old value even when the current decoder would also accept; if only the current decoder accepts, the result is its value |
| `Compat.DeserializeWith` | src/lib.rs:54-64 | the hook fails exactly when decode fails; if the old decoder accepts it yields the converted old value, and otherwise it yields what the current decoder yields |
| `Compat.DerivedFrom` | compatible-with-derive/src/lib.rs:9-18 | the generated `From<Compatible<Old, T>> for T` yields the value the normalised adapter holds |
| `Compat.OldUpgrade` | src/lib.rs:106-108 | an old-shaped payload that the old decoder reads back decodes to `Current` of exactly the user's conversion, and the hook yields that conversion |
| `Compat.CurrentRoundTrip` | src/lib.rs:112-126 | encoding an adapter holding `Current(c)` and decoding it gives it back exactly when the old decoder rejects the encoding and the current decoder reads `c`, or when the old decoder accepts it and its conversion happens to be `c` |
| `Compat.CollisionPrefersOld` | src/lib.rs:89-95 | when both decoders accept a current encoding, the old reading wins; the round trip returns `c` exactly when converting the old reading gives `c` |
| `Compat.DecodeThenEncode` | src/lib.rs:112-126 | re-encoding any decoded adapter emits the current encoding of the value `into_current` gives, never the old shape |
| `Nesting.DecodeChain` | src/lib.rs:97-110 | decoding `Compatible<Compatible<A, B>, C>` tries `A`, then `B`, then `C`, converting through each step; it fails exactly when all three reject, and always holds `Current` |
| `Nesting.ChainComposes` | src/lib.rs:54-64 | with the outer conversion written as unwrap-then-upgrade, the hook on a chain yields `g(f(a))` for an `A` payload, `g(b)` for a `B` payload and `c` for a `C` payload |
| `Nesting.AdapterReadsBack` | src/lib.rs:97-126 | if the current decoder reads back its encoder's output and the old decoder rejects all of it, every adapter holding `Current` survives encode-then-decode |
| `Nesting.AdapterRejectsAll` | src/lib.rs:97-110 | an encoding that both of an adapter's decoders reject is rejected by the adapter's decoder, so the adapter can be a distinguishable old type of another adapter |
| `Nesting.ChainReadsBack` | src/lib.rs:97-126 | the newest version of a three-version chain round-trips when neither older decoder accepts its encoding |
| `DirTree.Rooted` | src/lib.rs:200-211 | the upgraded tree is a root with id 0, name "root" and path "/", with one child per old record in the original order, each child carrying that record's fields and no children |
| `DirTree.FromDirs` | src/lib.rs:200-211 | building the empty root and extending its children record by record yields exactly `Rooted` of the list |
| `DirTree.FlattenRooted` | src/lib.rs:189-211 | the upgrade loses nothing: the children of the new root, read as records, are the old list |
| `DirTree.DirNodeReadsBack` | src/lib.rs:170-176 | a `DirNode` whose ids fit `i64` is read back from its own encoding |
| `DirTree.DirNodeNotDirs` | src/lib.rs:184-187 | the encoding of a `DirNode` is never accepted as the old `Vec<Dir>` shape |
| `Scenarios.SimpleMigrates` | src/lib.rs:128-158 | any `i32` record `Old { a }` decodes through the adapter to `New { a: a.to_string(), b: 0 }` |
| `Scenarios.SimpleTest` | src/lib.rs:151-157 | `{"a":1}` unwraps to `a == "1"` and `b == 0` |
| `Scenarios.ComplexMigrates` | src/lib.rs:213-234 | old data decodes into the new record with the adapter holding the rooted tree; the old `root` key is ignored |
| `Scenarios.ComplexTest` | src/lib.rs:233-239 | the test's two records become two leaf children of the synthetic root, and the re-encoded record is that tree with empty `children` lists |
| `Scenarios.ComplexHeals` | src/lib.rs:184-187 | the migrated record, written and read again, is the same record |
| `Scenarios.WithTest` | src/lib.rs:242-276 | `{"a":1}` read through `deserialize_with` gives `MyType("1")`; `{"a":"1"}` gives the same |
| `Scenarios.CollisionLosesField` | src/lib.rs:89-95 | with `Old { a }` and `Current { a, b = 0 by default }`, a current record with `b != 0` reads back by itself, but through the adapter it comes out with `b` reset to 0 |
| `Scenarios.DerivedAsWrittenReadsInteger` | tests/derive.rs:2-36 | as the test writes it, MyType's decoder reads an `i32` payload as its decimal text |
| `Scenarios.DerivedAsWrittenRecurses` | tests/derive.rs:6-8 | as written, on any payload that is not an `i32`, MyType's decoder is still re-entering itself at any depth |
| `Scenarios.DerivedStringNeverDecodes` | tests/derive.rs:6-8 | as written, the string `"1"`, which is MyType's own shape, never finishes decoding |
| `Scenarios.DerivedCorrected` | tests/derive.rs:6-8 | with the current branch reading MyType's own string shape, an `i32` payload gives its decimal text, a string gives itself, and anything else fails |
| `Scenarios.DerivedTest` | tests/derive.rs:26-35 | with the corrected decoder, `{"a":1}` and `{"a":"1"}` both give `MyType("1")` |

## Left out

- The serde and serde_json machinery is not modelled. This covers the
  `Deserializer`/`Serializer` traits, JSON text, the buffering of untagged
  content, and error values with their messages. Decoders are abstract partial
  functions, and every failure collapses to `None`.
- Encoders are total. A serializer's own errors (`S::Error`) are not modelled.
- `Wire` is only a stand-in for the JSON data model, used to replay the tests.
  Objects are maps, so key order and exact JSON text are not modelled.
  `ComplexTest` compares trees, not the expected string. Structs are read
  only from objects, never from arrays. Duplicate keys cannot occur.
- The derived `PartialEq`, `PartialOrd`, `Ord`, `Eq`, `Debug`, `Hash`,
  `Clone` and `Copy` impls are not modelled. They are library derivations
  with no adapter-specific behaviour.
- The derive macro's token-stream generation with `syn`/`quote` is not
  modelled. Only the impl it emits is modelled, as `Compat.DerivedFrom`.
- `deserialize_with` and `#[serde(from = ...)]` are modelled as functions
  that the test records' decoders call. serde's attribute processing is not
  modelled.
- A hand-written `CompatibleTo` impl is not modelled. `Compatible::into_current`
  requires `Current: CompatibleWith<Old>`, so such an impl can never reach the
  adapter.
- The performance cost of untagged enums is not modelled. It has no
  behavioural content.
- `Scenarios.DerivedAsWritten` bounds its self-calls by a `depth` parameter. It
  does not model the stack overflow itself, only that a result is never
  reached at any depth.
- `Compat.Compatible.MakeCurrent` models `mut self` as a local copy that is
  rebound and returned. Rust moves the value, and there is no aliasing to
  model.

## Findings

| source | as written | input that shows it | evidently intended | confidence | as-written member | corrected member |
|---|---|---|---|---|---|---|
| tests/derive.rs:6-8 | `MyType` is decoded only through `Compatible<i32, MyType>` (`#[serde(from = ...)]`). The `Current` branch of that adapter's `Alt` is `MyType`'s own decoder, so on the same input it starts the same decode again | the JSON string `"1"`, which is `MyType`'s current shape: the `i32` branch rejects it and the decoder re-enters itself without end; the test passes only because its payload is an integer | the `Current` branch reads `MyType`'s own newtype shape, a bare string, so a current-shaped payload decodes to itself | medium; not executed | `Scenarios.DerivedAsWrittenRecurses` | `Scenarios.DerivedCorrected` |
