/**
 * The input binding's command construction: the `@name=value,...`
 * parameter grammar and the check on the command type. Three revisions of
 * the extension carry this code; they differ only in whether the value
 * `null` (in any letter case) stands for a database NULL.
 */
module SqlCommands {
  import opened Common

  /** System.Data.CommandType. */
  datatype CommandType = Text | StoredProcedure | TableDirect

  /** A parameter value: a string, or DBNull.Value. */
  datatype ParameterValue = Value(text: string) | DbNull

  datatype SqlParameter = SqlParameter(name: string, value: ParameterValue)

  /** The parts of a SqlCommand that the binding sets. */
  class SqlCommand {
    var commandText: string
    var commandType: CommandType
    var parameters: seq<SqlParameter>

    constructor (text: string)
      ensures commandText == text && commandType == Text && parameters == []
    {
      commandText := text;
      commandType := Text;
      parameters := [];
    }
  }

  /** The attribute fields that command construction reads. */
  datatype SqlAttribute = SqlAttribute(
    commandText: string,
    commandType: CommandType,
    parameters: Option<string>)

  /**
   * One `name=value` entry. It must split on '=' into exactly two items,
   * the name must start with '@', and with `nullKeyword` the value "null"
   * (compared ignoring case) becomes DBNull; every other value is kept as
   * written, the empty value included.
   */
  function ParseEntry(entry: string, nullKeyword: bool): Result<SqlParameter>
  {
    var items := Split(entry, '=');
    if |items| != 2 then Failure(Throw(ArgumentException))
    else if !StartsWith(items[0], "@") then Failure(Throw(ArgumentException))
    else if nullKeyword && EqualsIgnoreCase(items[1], "null") then Success(SqlParameter(items[0], DbNull))
    else Success(SqlParameter(items[0], Value(items[1])))
  }

  /**
   * What parsing a list of entries does to a command: the parameters added
   * (those of the entries before the first malformed one) and the exception
   * thrown at that entry, if any.
   */
  datatype ParseOutcome = ParseOutcome(added: seq<SqlParameter>, error: Option<Exception>)

  function ParseEntries(entries: seq<string>, nullKeyword: bool): ParseOutcome
  {
    if |entries| == 0 then ParseOutcome([], None)
    else match ParseEntry(entries[0], nullKeyword)
      case Failure(e) => ParseOutcome([], Some(e))
      case Success(p) =>
        var rest := ParseEntries(entries[1..], nullKeyword);
        ParseOutcome([p] + rest.added, rest.error)
  }

  /**
   * The whole parameter string: a missing string adds nothing, and commas
   * are separators whose empty pieces are dropped.
   */
  function ParameterList(parameters: Option<string>, nullKeyword: bool): ParseOutcome
  {
    match parameters
    case None => ParseOutcome([], None)
    case Some(s) => ParseEntries(SplitRemoveEmpty(s, ','), nullKeyword)
  }

  /**
   * ParseParameters: a null command is rejected, otherwise each entry is
   * parsed in turn and its parameter appended to the command, so a
   * malformed entry leaves the parameters of the entries before it added.
   */
  method ParseParameters(parameters: Option<string>, command: SqlCommand?, nullKeyword: bool)
    returns (error: Option<Exception>)
    modifies command
    ensures command == null ==> error == Some(Throw(ArgumentNullException))
    ensures command != null ==>
      var outcome := ParameterList(parameters, nullKeyword);
      command.parameters == old(command.parameters) + outcome.added &&
      command.commandText == old(command.commandText) &&
      command.commandType == old(command.commandType) &&
      error == outcome.error
  {
    if command == null {
      return Some(Throw(ArgumentNullException));
    }
    if parameters.None? || parameters.value == "" {
      EmptyStringAddsNothing(nullKeyword);
      return None;
    }
    error := AddParameters(SplitRemoveEmpty(parameters.value, ','), command, nullKeyword);
  }

  /** The foreach over the entries: each parsed entry is appended until one fails. */
  method AddParameters(entries: seq<string>, command: SqlCommand, nullKeyword: bool) returns (error: Option<Exception>)
    modifies command
    ensures var outcome := ParseEntries(entries, nullKeyword);
      command.parameters == old(command.parameters) + outcome.added &&
      command.commandText == old(command.commandText) &&
      command.commandType == old(command.commandType) &&
      error == outcome.error
  {
    ghost var outcome := ParseEntries(entries, nullKeyword);
    var i := 0;
    ghost var added: seq<SqlParameter> := [];
    assert entries[0..] == entries;
    while i < |entries|
      invariant 0 <= i <= |entries|
      invariant command.parameters == old(command.parameters) + added
      invariant command.commandText == old(command.commandText)
      invariant command.commandType == old(command.commandType)
      invariant outcome.added == added + ParseEntries(entries[i..], nullKeyword).added
      invariant outcome.error == ParseEntries(entries[i..], nullKeyword).error
    {
      ParseEntriesAt(entries, i, nullKeyword);
      var parsed := ParseEntry(entries[i], nullKeyword);
      if parsed.Failure? {
        assert added + [] == added;
        return Some(parsed.error);
      }
      command.parameters := command.parameters + [parsed.value];
      ghost var rest := ParseEntries(entries[i + 1..], nullKeyword).added;
      assert added + ([parsed.value] + rest) == (added + [parsed.value]) + rest;
      added := added + [parsed.value];
      i := i + 1;
    }
    assert entries[i..] == [];
    assert added + [] == added;
    error := None;
  }

  /** The entries from i on: the entry at i, then the rest unless it fails. */
  lemma ParseEntriesAt(entries: seq<string>, i: nat, nullKeyword: bool)
    requires i < |entries|
    ensures ParseEntry(entries[i], nullKeyword).Failure? ==>
      ParseEntries(entries[i..], nullKeyword) == ParseOutcome([], Some(ParseEntry(entries[i], nullKeyword).error))
    ensures ParseEntry(entries[i], nullKeyword).Success? ==>
      var rest := ParseEntries(entries[i + 1..], nullKeyword);
      ParseEntries(entries[i..], nullKeyword) == ParseOutcome([ParseEntry(entries[i], nullKeyword).value] + rest.added, rest.error)
  {
    assert entries[i..][0] == entries[i];
    assert entries[i..][1..] == entries[i + 1..];
  }

  /** The command BuildCommand produces: its text, its type and its parameters. */
  datatype CommandPlan = CommandPlan(text: string, commandType: CommandType, parameters: seq<SqlParameter>)

  /**
   * BuildCommand keeps the attribute's text, accepts only Text and
   * StoredProcedure, and then parses the parameters; an exception at any
   * step means no command is returned.
   */
  function PlanCommand(attribute: SqlAttribute, nullKeyword: bool): (r: Result<CommandPlan>)
    ensures r.Success? ==> r.value.text == attribute.commandText
    ensures r.Success? ==> r.value.commandType == attribute.commandType
    ensures attribute.commandType == TableDirect ==> r == Failure(Throw(ArgumentException))
  {
    if attribute.commandType != StoredProcedure && attribute.commandType != Text then
      Failure(Throw(ArgumentException))
    else
      var outcome := ParameterList(attribute.parameters, nullKeyword);
      if outcome.error.Some? then Failure(outcome.error.value)
      else Success(CommandPlan(attribute.commandText, attribute.commandType, outcome.added))
  }

  method BuildCommand(attribute: SqlAttribute, nullKeyword: bool)
    returns (command: SqlCommand?, error: Option<Exception>)
    ensures var plan := PlanCommand(attribute, nullKeyword);
      (plan.Success? <==> command != null) &&
      (plan.Failure? ==> error == Some(plan.error)) &&
      (command != null ==>
         fresh(command) && error == None &&
         command.commandText == plan.value.text &&
         command.commandType == plan.value.commandType &&
         command.parameters == plan.value.parameters)
  {
    var built := new SqlCommand(attribute.commandText);
    if attribute.commandType == StoredProcedure {
      built.commandType := StoredProcedure;
    } else if attribute.commandType != Text {
      return null, Some(Throw(ArgumentException));
    }
    error := ParseParameters(attribute.parameters, built, nullKeyword);
    if error.Some? {
      return null, error;
    }
    command := built;
  }

  // ---------------------------------------------------------------------
  // Properties of the grammar

  /** The entries of a well-formed list all parse, in order. */
  predicate WellFormedParameter(p: SqlParameter, nullKeyword: bool)
  {
    StartsWith(p.name, "@") && ',' !in p.name && '=' !in p.name &&
    match p.value
    case DbNull => nullKeyword
    case Value(v) => ',' !in v && '=' !in v && !(nullKeyword && EqualsIgnoreCase(v, "null"))
  }

  /** How a parameter is written in the attribute's parameter string. */
  function Written(p: SqlParameter): string
  {
    p.name + "=" + match p.value case DbNull => "null" case Value(v) => v
  }

  function WrittenAll(ps: seq<SqlParameter>): seq<string>
  {
    seq(|ps|, i requires 0 <= i < |ps| => Written(ps[i]))
  }

  lemma WrittenEntryParses(p: SqlParameter, nullKeyword: bool)
    requires WellFormedParameter(p, nullKeyword)
    ensures ParseEntry(Written(p), nullKeyword) == Success(p)
  {
    var v := match p.value case DbNull => "null" case Value(v) => v;
    assert Written(p) == p.name + "=" + v;
    SplitOfFree(p.name, '=');
    SplitOfFree(v, '=');
    SplitJoin([p.name, v], '=');
    assert Join("=", [p.name, v]) == p.name + "=" + v;
  }

  lemma {:induction false} WrittenEntriesParse(ps: seq<SqlParameter>, nullKeyword: bool)
    requires forall i :: 0 <= i < |ps| ==> WellFormedParameter(ps[i], nullKeyword)
    ensures ParseEntries(WrittenAll(ps), nullKeyword) == ParseOutcome(ps, None)
  {
    if |ps| > 0 {
      WrittenEntryParses(ps[0], nullKeyword);
      WrittenEntriesParse(ps[1..], nullKeyword);
      assert WrittenAll(ps)[1..] == WrittenAll(ps[1..]);
    }
  }

  lemma {:induction false} NonEmptyOfNonEmpty(parts: seq<string>)
    requires forall i :: 0 <= i < |parts| ==> parts[i] != ""
    ensures NonEmpty(parts) == parts
  {
    if |parts| > 0 {
      NonEmptyOfNonEmpty(parts[1..]);
    }
  }

  /**
   * Round trip: writing well-formed parameters as `@a=x,@b=y,...` and
   * parsing the string gives back exactly those parameters, in order.
   */
  lemma ParametersRoundTrip(ps: seq<SqlParameter>, nullKeyword: bool)
    requires |ps| > 0
    requires forall i :: 0 <= i < |ps| ==> WellFormedParameter(ps[i], nullKeyword)
    ensures ParameterList(Some(Join(",", WrittenAll(ps))), nullKeyword) == ParseOutcome(ps, None)
  {
    var entries := WrittenAll(ps);
    forall i | 0 <= i < |entries| ensures ',' !in entries[i] && entries[i] != "" {
      var v := match ps[i].value case DbNull => "null" case Value(v) => v;
      assert entries[i] == ps[i].name + "=" + v;
      assert entries[i][|ps[i].name|] == '=';
    }
    SplitJoin(entries, ',');
    NonEmptyOfNonEmpty(entries);
    WrittenEntriesParse(ps, nullKeyword);
  }

  /**
   * A malformed list adds exactly the parameters of the entries before the
   * first entry that fails, and reports that entry's exception.
   */
  lemma {:induction false} ParseStopsAtFirstError(entries: seq<string>, nullKeyword: bool)
    requires ParseEntries(entries, nullKeyword).error.Some?
    ensures var outcome := ParseEntries(entries, nullKeyword);
      var k := |outcome.added|;
      k < |entries| &&
      ParseEntry(entries[k], nullKeyword) == Failure(outcome.error.value) &&
      forall j :: 0 <= j < k ==> ParseEntry(entries[j], nullKeyword) == Success(outcome.added[j])
  {
    if ParseEntry(entries[0], nullKeyword).Success? {
      ParseStopsAtFirstError(entries[1..], nullKeyword);
      var outcome := ParseEntries(entries, nullKeyword);
      var rest := ParseEntries(entries[1..], nullKeyword);
      forall j | 0 <= j < |outcome.added| ensures ParseEntry(entries[j], nullKeyword) == Success(outcome.added[j]) {
        if j > 0 {
          assert outcome.added[j] == rest.added[j - 1];
          assert entries[j] == entries[1..][j - 1];
        }
      }
    }
  }

  /** Without the null keyword nothing becomes DBNull. */
  lemma {:induction false} VerbatimValuesOnly(entries: seq<string>)
    ensures forall j :: 0 <= j < |ParseEntries(entries, false).added| ==>
      ParseEntries(entries, false).added[j].value.Value?
  {
    if |entries| > 0 && ParseEntry(entries[0], false).Success? {
      VerbatimValuesOnly(entries[1..]);
    }
  }

  /** An empty parameter string adds nothing, the same as a missing one. */
  lemma EmptyStringAddsNothing(nullKeyword: bool)
    ensures ParameterList(Some(""), nullKeyword) == ParameterList(None, nullKeyword)
  {
    assert Split("", ',') == [""];
  }

  /** An entry with a second '=' is rejected, as is one without '=' or without a leading '@'. */
  lemma {:induction false} DoubledEqualsRejected(nullKeyword: bool)
    ensures ParseEntry("@param2==param2", nullKeyword).Failure?
  {
    SplitJoin(["@param2", "", "param2"], '=');
    assert Join("=", ["@param2", "", "param2"]) == "@param2==param2";
  }

  lemma {:induction false} TrailingEqualsRejected(nullKeyword: bool)
    ensures ParseEntry("@param2=param2=", nullKeyword).Failure?
  {
    SplitJoin(["@param2", "param2", ""], '=');
    assert Join("=", ["@param2", "param2", ""]) == "@param2=param2=";
  }

  lemma {:induction false} MissingEqualsRejected(nullKeyword: bool)
    ensures ParseEntry("@param2;param2", nullKeyword).Failure?
  {
    SplitOfFree("@param2;param2", '=');
  }

  lemma {:induction false} MissingAtRejected(nullKeyword: bool)
    ensures ParseEntry("param2=param2", nullKeyword).Failure?
  {
    SplitJoin(["param2", "param2"], '=');
    assert Join("=", ["param2", "param2"]) == "param2=param2";
  }

  /** "null" in any letter case is DBNull with the keyword and verbatim without it. */
  lemma NullKeywordValue(name: string, v: string)
    requires StartsWith(name, "@") && '=' !in name && '=' !in v && EqualsIgnoreCase(v, "null")
    ensures ParseEntry(name + "=" + v, true) == Success(SqlParameter(name, DbNull))
    ensures ParseEntry(name + "=" + v, false) == Success(SqlParameter(name, Value(v)))
  {
    EntrySplitsInTwo(name, v);
  }

  /** "NuLl" is one of the spellings the keyword accepts. */
  lemma MixedCaseNull()
    ensures EqualsIgnoreCase("NuLl", "null")
  {
    assert ToLower("NuLl") == "null";
  }

  /** A name and a value without '=' split back apart at the one '=' between them. */
  lemma EntrySplitsInTwo(name: string, v: string)
    requires '=' !in name && '=' !in v
    ensures Split(name + "=" + v, '=') == [name, v]
  {
    SplitJoin([name, v], '=');
    assert Join("=", [name, v]) == name + "=" + v;
  }

  /** An empty value stays the empty string. */
  lemma {:induction false} EmptyValue(nullKeyword: bool)
    ensures ParseEntry("@p=", nullKeyword) == Success(SqlParameter("@p", Value("")))
  {
    SplitJoin(["@p", ""], '=');
    assert Join("=", ["@p", ""]) == "@p=";
    assert ToLower("") != ToLower("null");
  }
}
