# safehtml `JSON` in Dafny

A model of the `JSON` type of the Go package `safehtml` (file `json.go`). The
type is an immutable wrapper around a string that is meant to be safe to use in
JSON contexts. It has one unexported field, so a value cannot be made from an
arbitrary string by conversion. A value is either the zero value (empty text,
which `var j JSON` or `JSON{}` also gives, and which `JSONConcat()` returns) or
comes from one of the package's constructors:

- `JSONFromConstant`, which wraps an author-written constant as it is;
- `JSONFromValue`, which parses arbitrary input and re-encodes it, and is the only constructor that can fail;
- `JSONEscaped`, which wraps text after coercing it to interchange-valid UTF-8;
- `EmptyObjectJSON` and `EmptyArrayJSON`, which return `{}` and `[]`;
- `JSONConcat`, which joins existing values with nothing between them.

The accessor `String` hands the text back unchanged.

Files:

- `wrappers.dfy` (module `Wrappers`) holds `Option`, which stands for Go's `error` with `None` as nil. It also holds `Result`, the shape of a library call that returns either a value or an error.
- `json.dfy` (module `SafeJSON`) holds the type, its constructors and accessor, and the lemmas.

`JSONConcat` is a method with a loop over its arguments. A string local plays the part of the `bytes.Buffer`. The method is proved equal to the reference function `Concatenation`, and the properties of concatenation are lemmas about that function. `JSONFromValue` is a method that runs the parse and encode steps one after the other and returns at the first error, as the Go code does with `goto end`.

`encoding/json.Unmarshal`, `encoding/json.Marshal` and `coerceToUTF8InterchangeValid` are not part of this model. They are passed in as function parameters, so every result holds for any parser, encoder and coercion.

## Model

| member | source | states |
|---|---|---|
| `SafeJSON.JSON.String` | json.go:85-88 | returns the wrapped text with no transformation |
| `SafeJSON.StringDeterminesValue` | json.go:24-28 | a value has no state besides its one text field: two values with the same text are equal |
| `SafeJSON.JSONFromConstant` | json.go:30-32 | the constant is wrapped verbatim: `JSONFromConstant(c).String()` is the constant's text |
| `SafeJSON.JSONFromValue` | json.go:34-48 | a parse error is returned with the zero value (empty text), and that outcome does not depend on the encoder. If parsing succeeds but encoding fails, the encoder's error is returned with the zero value. If both succeed, the error is nil and the text is exactly the encoder's output. Any error implies empty text |
| `SafeJSON.JSONEscaped` | json.go:60-63 | the result's text is the coerced input |
| `SafeJSON.JSONEscapedKeepsMarkup` | json.go:56-62 | no escaping is done: for the text `<&"`, left alone by the coercion, the result still contains `<`, `&` and `"` |
| `SafeJSON.EmptyObjectJSON` | json.go:65-68 | the text is exactly `{}` |
| `SafeJSON.EmptyArrayJSON` | json.go:70-73 | the text is exactly `[]` |
| `SafeJSON.Concatenation` | json.go:75-83 | reference definition of concatenation: the text's length is the sum of the arguments' lengths, and no arguments give the zero value (empty text) |
| `SafeJSON.JSONConcat` | json.go:77-83 | the loop over the arguments, writing each text to an initially empty buffer, produces exactly `Concatenation` of the arguments |
| `SafeJSON.ConcatenationAppend` | json.go:78-82 | concatenating `a + b` gives the text of `a`'s concatenation followed by the text of `b`'s |
| `SafeJSON.ConcatenationPlacesInOrder` | json.go:75-83 | argument `i`'s text appears whole in the result, starting right after the texts of arguments `0..i-1`: the order is kept and nothing is inserted |
| `SafeJSON.ConcatenationFlattens` | json.go:77-83 | concatenating two concatenations equals one concatenation of all the original arguments |
| `SafeJSON.ConcatenationAssociative` | json.go:77-83 | `JSONConcat(JSONConcat(a, b), c)` and `JSONConcat(a, JSONConcat(b, c))` give the same value |
| `SafeJSON.ConcatenationSingleton` | json.go:77-83 | concatenating one value gives that value back |
| `SafeJSON.ConcatenationOfEmptyLiterals` | json.go:65-83 | `JSONConcat(EmptyObjectJSON(), EmptyArrayJSON())` has the text `{}[]`: nothing is merged |

## Left out

- Hidden field: Go hides the `str` field, so other packages cannot build a `JSON` from an arbitrary string. They can still obtain the zero value (`var j JSON`, `JSON{}`), whose text is empty; the model's `Zero` is that value. This model uses no Dafny export sets, so the `JSON` datatype constructor stays visible to importing modules. Nothing in the model enforces the "only through constructors" discipline. The model states what each constructor produces.
- `encoding/json.Unmarshal` and `encoding/json.Marshal`: the JSON grammar and the canonical encoding belong to Go's standard library. They are parameters of `JSONFromValue`, and nothing is claimed about their round trip or about the well-formedness of their output.
- `coerceToUTF8InterchangeValid` is not part of this model; it is a parameter of `JSONEscaped`. The model does not claim that the result is interchange-valid UTF-8.
- `JSONEscaped`: its doc comment (json.go:56) says it escapes `&<>"'`, but the code only coerces, and the escaping call is commented out (json.go:62). The model follows the code.
- `stringConstant` is not defined in `json.go`. The model stands it in with the wrapper `StringConstant`, whose constructor is public, so any runtime string can be wrapped; Dafny has no way to restrict it to compile-time literals.
- The `JSONer` interface (json.go:52-54) declares a method signature and has no behaviour of its own.
- The XSS and browser-evaluation guarantees in the doc comment (json.go:14-23) concern the runtime context the text is emitted into. They are not stated over this code.
- Go strings are byte sequences; the model uses `string` (`seq<char>`). The conversions `[]byte(input)` and `string(j)` are therefore the identity, and the encoder's output is a `string`. Two consequences:
  - `TotalLength` counts characters, where Go's `len` counts bytes.
  - The invalid UTF-8 that `coerceToUTF8InterchangeValid` exists to repair cannot be represented in `seq<char>`, so `JSONEscaped` never receives such input in the model.
- The model only allows an `Unmarshal` failure that carries an error. Go's `Unmarshal` fills its target `x` even on some failures, but `JSONFromValue` never uses `x` after an error, so that has no effect here.
