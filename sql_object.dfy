/**
 * SqlObject: the names derived from a parsed `schema.object` reference.
 * The T-SQL parser is not part of this model; its outcome (the parse
 * errors, or the schema identifier if any and the base identifier) is the
 * input.
 */
module SqlObjects {
  import opened Common
  import BindingUtilities

  const SchemaNameFunction := "SCHEMA_NAME()"
  const ParseErrorHeader := "Encountered error(s) while parsing schema and object name:\n"

  /** What ParseSchemaObjectName reports: its error messages and the identifiers it found. */
  datatype ParsedName = ParsedName(errors: seq<string>, schema: Option<string>, name: string)

  /** The readonly fields of a SqlObject. */
  datatype SqlObject = SqlObject(
    name: string,
    quotedName: string,
    schema: string,
    quotedSchema: string,
    fullName: string,
    quotedFullName: string)

  /** The error text: one line per parse error after the header. */
  function ListedErrors(errors: seq<string>): string
  {
    if |errors| == 0 then ParseErrorHeader
    else ListedErrors(errors[..|errors| - 1]) + errors[|errors| - 1] + "\n"
  }

  /** The source builds the error text in a foreach loop. */
  method ErrorMessage(errors: seq<string>) returns (message: string)
    ensures message == ListedErrors(errors)
  {
    message := ParseErrorHeader;
    var i := 0;
    while i < |errors|
      invariant 0 <= i <= |errors|
      invariant message == ListedErrors(errors[..i])
    {
      assert errors[..i + 1][..i] == errors[..i];
      message := message + errors[i] + "\n";
      i := i + 1;
    }
    assert errors[..|errors|] == errors;
  }

  /** Every error message appears in the text, and the text starts with the header. */
  lemma {:induction false} ListedErrorsContents(errors: seq<string>)
    ensures StartsWith(ListedErrors(errors), ParseErrorHeader)
    ensures forall i :: 0 <= i < |errors| ==> Contains(ListedErrors(errors), errors[i] + "\n")
  {
    if |errors| > 0 {
      var init := errors[..|errors| - 1];
      ListedErrorsContents(init);
      var before := ListedErrors(init);
      var text := ListedErrors(errors);
      assert text == before + (errors[|errors| - 1] + "\n");
      forall i | 0 <= i < |errors| ensures Contains(text, errors[i] + "\n") {
        if i == |errors| - 1 {
          ContainsAt(text, errors[i] + "\n");
          assert OccursAt(text, errors[i] + "\n", |before|);
        } else {
          assert errors[i] == init[i];
          ContainsAt(before, errors[i] + "\n");
          var k :| OccursAt(before, errors[i] + "\n", k);
          assert text[k..k + |errors[i] + "\n"|] == before[k..k + |errors[i] + "\n"|];
          ContainsAt(text, errors[i] + "\n");
          assert OccursAt(text, errors[i] + "\n", k);
        }
      }
    }
  }

  /**
   * The SqlObject constructor: parse errors are one InvalidOperationException
   * listing them all; otherwise an absent schema is the SCHEMA_NAME()
   * function, which is left unquoted and omitted from FullName, while
   * ToString always shows "Schema.Name".
   */
  function FromParsed(parsed: ParsedName): (r: Result<SqlObject>)
    ensures |parsed.errors| > 0 ==>
      r == Failure(ThrowWith(InvalidOperationException, ListedErrors(parsed.errors)))
    ensures |parsed.errors| == 0 ==> r.Success?
    ensures r.Success? ==>
      var o := r.value;
      o.quotedName == BindingUtilities.AsSingleQuotedString(o.name) &&
      (o.schema != SchemaNameFunction ==> o.quotedSchema == BindingUtilities.AsSingleQuotedString(o.schema)) &&
      o.quotedFullName == "'" + BindingUtilities.AsSingleQuoteEscapedString(o.fullName) + "'"
    ensures r.Success? ==>
      var o := r.value;
      o.name == parsed.name &&
      o.schema == (if parsed.schema.Some? then parsed.schema.value else SchemaNameFunction) &&
      (o.schema == SchemaNameFunction ==> o.quotedSchema == SchemaNameFunction && o.fullName == o.name) &&
      (o.schema != SchemaNameFunction ==>
         o.fullName == o.schema + "." + o.name && |o.quotedSchema| >= 2 &&
         Undouble(o.quotedSchema[1..|o.quotedSchema| - 1], '\'') == o.schema) &&
      |o.quotedName| >= 2 && Undouble(o.quotedName[1..|o.quotedName| - 1], '\'') == o.name &&
      |o.quotedFullName| >= 2 && o.quotedFullName[0] == '\'' && o.quotedFullName[|o.quotedFullName| - 1] == '\'' &&
      AllDoubled(o.quotedFullName[1..|o.quotedFullName| - 1], '\'') &&
      Undouble(o.quotedFullName[1..|o.quotedFullName| - 1], '\'') == o.fullName
  {
    if |parsed.errors| > 0 then Failure(ThrowWith(InvalidOperationException, ListedErrors(parsed.errors)))
    else
      var schema := if parsed.schema.Some? then parsed.schema.value else SchemaNameFunction;
      var quotedSchema := if schema == SchemaNameFunction then schema else BindingUtilities.AsSingleQuotedString(schema);
      var name := parsed.name;
      var fullName := if schema == SchemaNameFunction then name else schema + "." + name;
      var escaped := BindingUtilities.AsSingleQuoteEscapedString(fullName);
      var quotedFullName := "'" + escaped + "'";
      assert quotedFullName[1..|quotedFullName| - 1] == escaped;
      Success(SqlObject(name, BindingUtilities.AsSingleQuotedString(name), schema, quotedSchema, fullName, quotedFullName))
  }

  /** SqlObject.ToString: always "Schema.Name", also for the default schema. */
  function ToString(o: SqlObject): (s: string)
    ensures |s| == |o.schema| + 1 + |o.name|
    ensures s[..|o.schema|] == o.schema && s[|o.schema|] == '.' && s[|o.schema| + 1..] == o.name
  {
    var s := o.schema + "." + o.name;
    assert s[..|o.schema|] == o.schema;
    assert s[|o.schema| + 1..] == o.name;
    s
  }

  /**
   * A name without quotes is quoted as it is, and an object without a
   * schema shows "SCHEMA_NAME()" in ToString but not in FullName.
   */
  lemma DefaultSchemaNames(name: string)
    requires '\'' !in name
    ensures FromParsed(ParsedName([], None, name)).Success?
    ensures var o := FromParsed(ParsedName([], None, name)).value;
      o.fullName == name && o.quotedName == "'" + name + "'" && o.quotedFullName == "'" + name + "'" &&
      ToString(o) == "SCHEMA_NAME()." + name
  {
    var o := FromParsed(ParsedName([], None, name)).value;
    assert o.schema == SchemaNameFunction;
  }

  /**
   * A schema that is spelled "SCHEMA_NAME()" explicitly (a bracketed
   * identifier) is taken for the default schema: it is left unquoted and
   * dropped from FullName.
   */
  lemma ExplicitDefaultLookalike(name: string)
    ensures var explicit := FromParsed(ParsedName([], Some(SchemaNameFunction), name));
      var implicit := FromParsed(ParsedName([], None, name));
      explicit == implicit
  {
  }
}
