/** The `JSON` type of the safehtml package: an immutable wrapper around a
    string that is safe to use in JSON contexts. Its safety comes from the
    few ways a value can be built (a build-time constant, a parse-and-re-emit
    of arbitrary input, a coercion to interchange-valid text, two fixed empty
    literals and the concatenation of values already built), not from checks
    made when the value is used. */
module SafeJSON {
  import opened Wrappers

  /** A string the program's author wrote as a literal. Go gives it a type
      of its own so that runtime strings cannot be passed where a constant
      is expected. Here it is a distinct wrapper type, but its constructor is
      public, so the model does not restrict it to literals. */
  datatype StringConstant = StringConstant(text: string)

  /** The wrapper: exactly one field, the JSON text. */
  datatype JSON = JSON(str: string) {

    /** The plain text of the value, returned as it is. */
    function String(): (s: string)
      ensures s == str
    {
      str
    }
  }

  /** Go's zero value of `JSON`: the empty text. Any package obtains it by
      declaring a variable of type `JSON`; the fallible constructor returns
      it together with an error, and concatenating no values gives it. */
  const Zero: JSON := JSON("")

  // ---------------------------------------------------------------------
  // Constructors
  // ---------------------------------------------------------------------

  /** Wraps an author-controlled constant verbatim, without validation. */
  function JSONFromConstant(c: StringConstant): (r: JSON)
    ensures r.String() == c.text
  {
    JSON(c.text)
  }

  /** Parse-and-re-emit. `unmarshal` stands for `encoding/json.Unmarshal`
      (text to a generic value tree of type `V`) and `marshal` for
      `encoding/json.Marshal` (value tree back to canonical text); both
      either succeed or return an error of type `E`. The first failing step
      ends the call: its error is returned and the value stays zero, and a
      failed parse never reaches the encoder. Only when both steps succeed
      is the error nil and the text exactly the encoder's output. */
  method JSONFromValue<V, E>(input: string, unmarshal: string -> Result<V, E>, marshal: V -> Result<string, E>)
    returns (out: JSON, err: Option<E>)
    ensures unmarshal(input).Failure? ==>
              out == Zero && err == Some(unmarshal(input).error)
    ensures unmarshal(input).Success? && marshal(unmarshal(input).value).Failure? ==>
              out == Zero && err == Some(marshal(unmarshal(input).value).error)
    ensures unmarshal(input).Success? && marshal(unmarshal(input).value).Success? ==>
              err == None && out.String() == marshal(unmarshal(input).value).value
    ensures err.Some? ==> out.String() == ""
  {
    out, err := Zero, None;
    var parsed := unmarshal(input);
    if parsed.Failure? {
      err := Some(parsed.error);
      return;
    }
    var x := parsed.value;
    var encoded := marshal(x);
    if encoded.Failure? {
      err := Some(encoded.error);
      return;
    }
    var j := encoded.value;
    out := JSON(j);
  }

  /** Wraps `text` after coercing it to interchange-valid UTF-8. `coerce`
      stands for `coerceToUTF8InterchangeValid`, whose body is not part of
      this model. Nothing is escaped: the result is the coerced text. */
  function JSONEscaped(text: string, coerce: string -> string): (r: JSON)
    ensures r.String() == coerce(text)
  {
    JSON(coerce(text))
  }

  /** The empty JSON object `{}`. */
  function EmptyObjectJSON(): (r: JSON)
    ensures r.String() == "{}"
  {
    JSON("{}")
  }

  /** The empty JSON array `[]`. */
  function EmptyArrayJSON(): (r: JSON)
    ensures r.String() == "[]"
  {
    JSON("[]")
  }

  // ---------------------------------------------------------------------
  // Concatenation
  // ---------------------------------------------------------------------

  /** The sum of the lengths of the texts of `jsons`. */
  function TotalLength(jsons: seq<JSON>): nat
  {
    if jsons == [] then 0
    else TotalLength(jsons[..|jsons| - 1]) + |jsons[|jsons| - 1].String()|
  }

  /** Reference definition of concatenation: the texts of `jsons` one after
      another, in order, with nothing between them. */
  function Concatenation(jsons: seq<JSON>): (r: JSON)
    ensures |r.String()| == TotalLength(jsons)
    ensures jsons == [] ==> r == Zero
  {
    if jsons == [] then Zero
    else JSON(Concatenation(jsons[..|jsons| - 1]).String() + jsons[|jsons| - 1].String())
  }

  /** `JSONConcat`: a buffer, empty at first, to which the text of each
      argument is written in turn; the result wraps the buffer's content. */
  method JSONConcat(jsons: seq<JSON>) returns (r: JSON)
    ensures r == Concatenation(jsons)
  {
    var b: string := "";
    for i := 0 to |jsons|
      invariant b == Concatenation(jsons[..i]).String()
    {
      assert jsons[..i + 1][..i] == jsons[..i];
      b := b + jsons[i].String();
    }
    assert jsons[..|jsons|] == jsons;
    r := JSON(b);
  }

  /** Concatenating two lists is concatenating their concatenations. */
  lemma {:induction false} ConcatenationAppend(a: seq<JSON>, b: seq<JSON>)
    ensures Concatenation(a + b).String() == Concatenation(a).String() + Concatenation(b).String()
    decreases |b|
  {
    if b == [] {
      assert a + b == a;
    } else {
      var n := |b| - 1;
      assert (a + b)[..|a + b| - 1] == a + b[..n];
      ConcatenationAppend(a, b[..n]);
    }
  }

  /** Every argument's text appears whole, in argument order: the text of
      `jsons[i]` starts right after the texts of all earlier arguments. */
  lemma ConcatenationPlacesInOrder(jsons: seq<JSON>, i: nat)
    requires i < |jsons|
    ensures TotalLength(jsons[..i + 1]) == TotalLength(jsons[..i]) + |jsons[i].String()|
    ensures TotalLength(jsons[..i + 1]) <= TotalLength(jsons)
    ensures Concatenation(jsons).String()[TotalLength(jsons[..i])..TotalLength(jsons[..i + 1])]
            == jsons[i].String()
  {
    assert jsons[..i + 1][..i] == jsons[..i];
    assert jsons == jsons[..i + 1] + jsons[i + 1..];
    ConcatenationAppend(jsons[..i + 1], jsons[i + 1..]);
    assert Concatenation(jsons[..i + 1]).String()
        == Concatenation(jsons[..i]).String() + jsons[i].String();
  }

  /** A value built by concatenation can itself be concatenated: the result
      is the same as concatenating the original arguments in one call. */
  lemma ConcatenationFlattens(a: seq<JSON>, b: seq<JSON>)
    ensures Concatenation([Concatenation(a), Concatenation(b)]) == Concatenation(a + b)
  {
    ConcatenationAppend(a, b);
    assert [Concatenation(a), Concatenation(b)][..1] == [Concatenation(a)];
    assert [Concatenation(a)][..0] == [];
  }

  /** Grouping does not matter: `JSONConcat(JSONConcat(a, b), c)` and
      `JSONConcat(a, JSONConcat(b, c))` have the same text. */
  lemma ConcatenationAssociative(a: JSON, b: JSON, c: JSON)
    ensures Concatenation([Concatenation([a, b]), c]) == Concatenation([a, Concatenation([b, c])])
  {
    ConcatenationSingleton(a);
    ConcatenationSingleton(c);
    ConcatenationFlattens([a, b], [c]);
    ConcatenationFlattens([a], [b, c]);
    assert [a, b] + [c] == [a] + [b, c];
  }

  /** Concatenating a single value gives that value back. */
  lemma ConcatenationSingleton(j: JSON)
    ensures Concatenation([j]) == j
  {
    assert [j][..0] == [];
  }

  /** Concatenation merges nothing: an empty object followed by an empty
      array is the text `{}[]`, which is not itself one JSON document. */
  lemma ConcatenationOfEmptyLiterals()
    ensures Concatenation([EmptyObjectJSON(), EmptyArrayJSON()]).String() == "{}[]"
  {
    assert [EmptyObjectJSON(), EmptyArrayJSON()][..1] == [EmptyObjectJSON()];
    ConcatenationSingleton(EmptyObjectJSON());
  }

  // ---------------------------------------------------------------------
  // Properties of the accessor and of the coercing constructor
  // ---------------------------------------------------------------------

  /** A value is determined by its text: there is no hidden state besides
      the one field. */
  lemma StringDeterminesValue(a: JSON, b: JSON)
    requires a.String() == b.String()
    ensures a == b
  {
  }

  /** `JSONEscaped` escapes nothing: for a text holding `<`, `&` and `"`,
      which are already interchange-valid and so left alone by the
      coercion, those characters reach the result as they are instead of
      being replaced by escapes. */
  lemma JSONEscapedKeepsMarkup(coerce: string -> string)
    requires coerce("<&\"") == "<&\""
    ensures '<' in JSONEscaped("<&\"", coerce).String()
    ensures '&' in JSONEscaped("<&\"", coerce).String()
    ensures '"' in JSONEscaped("<&\"", coerce).String()
  {
    assert JSONEscaped("<&\"", coerce).String() == ['<', '&', '"'];
  }
}
