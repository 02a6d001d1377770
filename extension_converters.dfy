/**
 * The input converters of the first `SQLExtension` prototype: the
 * `User ID=..;Password=..` authentication grammar, connection building,
 * the choice between a query and a stored procedure, and the
 * `FOR JSON AUTO` variant whose result is the concatenation of the rows.
 * The two prototype files carry identical copies of GetCredential and
 * BuildConnection; one model serves both.
 */
module ExtensionConverters {
  import opened Common
  import SqlCommands

  /** The attribute of the prototype binding. */
  datatype ExtensionAttribute = ExtensionAttribute(
    connectionString: Option<string>,
    authentication: Option<string>,
    sqlQuery: Option<string>,
    procedure: Option<string>)

  /** A SqlCredential: the user id and the password's characters. */
  datatype Credential = Credential(userId: string, password: string)

  /** SqlConnectionWrapper: a connection string and the credential set on it. */
  datatype ConnectionWrapper = ConnectionWrapper(connectionString: string, credential: Option<Credential>)

  /**
   * The dictionary filled from the `key=value` entries: each entry must
   * split on '=' into exactly two items, and Dictionary.Add rejects a key
   * seen before.
   */
  function AddPairs(entries: seq<string>, acc: map<string, string>): (r: Result<map<string, string>>)
    ensures r.Failure? ==> r.error == Throw(ArgumentException)
    ensures r.Success? ==> acc.Keys <= r.value.Keys
    decreases |entries|
  {
    if |entries| == 0 then Success(acc)
    else
      var items := Split(entries[0], '=');
      if |items| != 2 then Failure(Throw(ArgumentException))
      else if items[0] in acc then Failure(Throw(ArgumentException))
      else AddPairs(entries[1..], acc[items[0] := items[1]])
  }

  /**
   * GetCredential: null gives no credential; otherwise the entries between
   * ';' (empty ones dropped) fill a dictionary, and both "User ID" and
   * "Password" must be present.
   */
  function CredentialFor(authentication: Option<string>): (r: Result<Option<Credential>>)
    ensures authentication.None? <==> r == Success(None)
    ensures r.Failure? ==> r.error == Throw(ArgumentException)
    ensures authentication.Some? ==>
      (r.Success? <==> var pairs := AddPairs(SplitRemoveEmpty(authentication.value, ';'), map[]);
                       pairs.Success? && "User ID" in pairs.value && "Password" in pairs.value)
  {
    if authentication.None? then Success(None)
    else match AddPairs(SplitRemoveEmpty(authentication.value, ';'), map[])
      case Failure(e) => Failure(e)
      case Success(dict) =>
        if "User ID" !in dict then Failure(Throw(ArgumentException))
        else if "Password" !in dict then Failure(Throw(ArgumentException))
        else Success(Some(Credential(dict["User ID"], dict["Password"])))
  }

  /**
   * GetCredential as the source runs it: a loop that fills the dictionary
   * and a loop that copies the password into a SecureString character by
   * character.
   */
  method GetCredential(authentication: Option<string>) returns (r: Result<Option<Credential>>)
    ensures r == CredentialFor(authentication)
    ensures r.Success? && r.value.Some? ==>
      authentication.Some? && Contains(authentication.value, r.value.value.password)
  {
    if authentication.None? {
      return Success(None);
    }
    var entries := SplitRemoveEmpty(authentication.value, ';');
    var dict: map<string, string> := map[];
    var i := 0;
    while i < |entries|
      invariant 0 <= i <= |entries|
      invariant AddPairs(entries, map[]) == AddPairs(entries[i..], dict)
      invariant forall k :: k in dict ==> Contains(authentication.value, dict[k])
    {
      assert entries[i..][1..] == entries[i + 1..];
      var items := Split(entries[i], '=');
      if |items| != 2 || items[0] in dict {
        return Failure(Throw(ArgumentException));
      }
      EntryValueOccurs(authentication.value, entries, i);
      dict := dict[items[0] := items[1]];
      i := i + 1;
    }
    if "User ID" !in dict || "Password" !in dict {
      return Failure(Throw(ArgumentException));
    }
    var passwordText := dict["Password"];
    var password: string := [];
    var j := 0;
    while j < |passwordText|
      invariant 0 <= j <= |passwordText|
      invariant password == passwordText[..j]
    {
      password := password + [passwordText[j]];
      j := j + 1;
    }
    assert passwordText[..|passwordText|] == passwordText;
    r := Success(Some(Credential(dict["User ID"], password)));
  }

  /** The value of an entry is a piece of the authentication string. */
  lemma EntryValueOccurs(s: string, entries: seq<string>, i: int)
    requires entries == SplitRemoveEmpty(s, ';')
    requires 0 <= i < |entries|
    requires |Split(entries[i], '=')| == 2
    ensures Contains(s, Split(entries[i], '=')[1])
  {
    var items := Split(entries[i], '=');
    JoinSplit(entries[i], '=');
    assert entries[i] == items[0] + "=" + items[1];
    SubstringOccurs(entries[i], items[0] + "=", items[1]);
    NonEmptyPiecesOccur(s, ';', i);
    ContainsTransitive(s, entries[i], items[1]);
  }

  /** Every non-empty piece of a split occurs in the split string. */
  lemma {:induction false} NonEmptyPiecesOccur(s: string, c: char, i: int)
    requires 0 <= i < |SplitRemoveEmpty(s, c)|
    ensures Contains(s, SplitRemoveEmpty(s, c)[i])
  {
    SplitPiecesOccur(s, c);
    NonEmptyIsSubsequence(Split(s, c), i);
  }

  lemma {:induction false} NonEmptyIsSubsequence(parts: seq<string>, i: int)
    requires 0 <= i < |NonEmpty(parts)|
    ensures exists j :: 0 <= j < |parts| && parts[j] == NonEmpty(parts)[i]
  {
    if parts[0] == "" {
      NonEmptyIsSubsequence(parts[1..], i);
      var j :| 0 <= j < |parts[1..]| && parts[1..][j] == NonEmpty(parts[1..])[i];
      assert parts[j + 1] == parts[1..][j];
    } else if i > 0 {
      NonEmptyIsSubsequence(parts[1..], i - 1);
      var j :| 0 <= j < |parts[1..]| && parts[1..][j] == NonEmpty(parts[1..])[i - 1];
      assert parts[j + 1] == parts[1..][j];
    } else {
      assert parts[0] == NonEmpty(parts)[0];
    }
  }

  lemma {:induction false} SplitPiecesOccur(s: string, c: char)
    ensures forall j :: 0 <= j < |Split(s, c)| ==> Contains(s, Split(s, c)[j])
    decreases |s|
  {
    if |s| > 0 {
      SplitPiecesOccur(s[1..], c);
      var rest := Split(s[1..], c);
      forall j | 0 <= j < |Split(s, c)| ensures Contains(s, Split(s, c)[j]) {
        var piece := Split(s, c)[j];
        if s[0] == c {
          if j == 0 {
            assert piece == "";
          } else {
            assert piece == rest[j - 1];
            assert Contains(s[1..], piece);
          }
        } else if j == 0 {
          SplitHeadIsPrefix(s[1..], c);
          assert piece == [s[0]] + rest[0];
          assert piece <= s;
        } else {
          assert piece == rest[j];
          assert Contains(s[1..], piece);
        }
      }
    } else {
      assert Split(s, c) == [""];
    }
  }

  lemma {:induction false} SplitHeadIsPrefix(s: string, c: char)
    ensures Split(s, c)[0] <= s
    decreases |s|
  {
    if |s| > 0 {
      SplitHeadIsPrefix(s[1..], c);
    }
  }

  /** Two entries with distinct keys fill a dictionary of exactly those two pairs. */
  lemma TwoEntries(k1: string, v1: string, k2: string, v2: string)
    requires '=' !in k1 && '=' !in v1 && '=' !in k2 && '=' !in v2
    requires ';' !in k1 && ';' !in v1 && ';' !in k2 && ';' !in v2
    requires k1 != k2
    ensures AddPairs(SplitRemoveEmpty(k1 + "=" + v1 + ";" + k2 + "=" + v2, ';'), map[]) ==
      Success(map[k1 := v1, k2 := v2])
  {
    var e1 := k1 + "=" + v1;
    var e2 := k2 + "=" + v2;
    assert ';' !in e1 && ';' !in e2;
    SplitJoin([e1, e2], ';');
    assert Join(";", [e1, e2]) == e1 + ";" + e2;
    assert e1 + ";" + e2 == k1 + "=" + v1 + ";" + k2 + "=" + v2;
    assert e1[|k1|] == '=' && e2[|k2|] == '=';
    assert [e1, e2][1..] == [e2];
    assert [e2][1..] == [];
    assert NonEmpty([e1, e2]) == [e1, e2];
    assert SplitRemoveEmpty(k1 + "=" + v1 + ";" + k2 + "=" + v2, ';') == [e1, e2];
    SqlCommands.EntrySplitsInTwo(k1, v1);
    SqlCommands.EntrySplitsInTwo(k2, v2);
    assert AddPairs([e1, e2], map[]) == AddPairs([e2], map[k1 := v1]);
    assert AddPairs([e2], map[k1 := v1]) == AddPairs([], map[k1 := v1][k2 := v2]);
  }

  /**
   * Round trip: an authentication string written as
   * "User ID=<u>;Password=<p>" (in either order) yields exactly that user
   * id and password.
   */
  lemma CredentialRoundTrip(u: string, p: string)
    requires ';' !in u && '=' !in u && ';' !in p && '=' !in p
    ensures CredentialFor(Some("User ID" + "=" + u + ";" + "Password" + "=" + p)) == Success(Some(Credential(u, p)))
    ensures CredentialFor(Some("Password" + "=" + p + ";" + "User ID" + "=" + u)) == Success(Some(Credential(u, p)))
  {
    TwoEntries("User ID", u, "Password", p);
    TwoEntries("Password", p, "User ID", u);
  }

  /** A key given twice is an ArgumentException, whatever follows. */
  lemma DuplicateKeyRejected(key: string, v1: string, v2: string, rest: seq<string>)
    requires '=' !in key && '=' !in v1 && '=' !in v2
    ensures AddPairs([key + "=" + v1, key + "=" + v2] + rest, map[]) == Failure(Throw(ArgumentException))
  {
    SqlCommands.EntrySplitsInTwo(key, v1);
    SqlCommands.EntrySplitsInTwo(key, v2);
    var entries := [key + "=" + v1, key + "=" + v2] + rest;
    assert entries[1..][0] == key + "=" + v2;
    assert AddPairs(entries, map[]) == AddPairs(entries[1..], map[key := v1]);
  }

  /**
   * The format that the error message suggests, with a space before '=',
   * makes the keys "User ID " and "Password ", so neither required key is
   * found and the string is rejected.
   */
  lemma SuggestedFormatRejected(u: string, p: string)
    requires ';' !in u && '=' !in u && ';' !in p && '=' !in p
    ensures CredentialFor(Some("User ID " + "=" + u + ";" + "Password " + "=" + p)) == Failure(Throw(ArgumentException))
  {
    TwoEntries("User ID ", u, "Password ", p);
    assert "User ID" != "User ID " && "User ID" != "Password ";
  }

  /**
   * BuildConnection: a null connection string is an ArgumentNullException
   * even when a wrapper is supplied; a wrapper is created only when none is
   * given; the credential parsed from Authentication is then set on it.
   */
  function BuildConnection(connection: Option<ConnectionWrapper>, attribute: ExtensionAttribute): (r: Result<ConnectionWrapper>)
    ensures attribute.connectionString.None? ==> r == Failure(Throw(ArgumentNullException))
    ensures r.Success? ==>
      CredentialFor(attribute.authentication).Success? &&
      r.value.credential == CredentialFor(attribute.authentication).value &&
      r.value.connectionString ==
        (if connection.Some? then connection.value.connectionString else attribute.connectionString.value)
    ensures attribute.connectionString.Some? && CredentialFor(attribute.authentication).Failure? ==>
      r == Failure(CredentialFor(attribute.authentication).error)
  {
    if attribute.connectionString.None? then Failure(Throw(ArgumentNullException))
    else
      var wrapper := if connection.Some? then connection.value else ConnectionWrapper(attribute.connectionString.value, None);
      match CredentialFor(attribute.authentication)
      case Failure(e) => Failure(e)
      case Success(credential) => Success(wrapper.(credential := credential))
  }

  /** The command the query converter runs. */
  datatype ExtensionCommand = ExtensionCommand(text: string, commandType: SqlCommands.CommandType,
                                               parameters: seq<SqlCommands.SqlParameter>)

  const ExecutionErrorPrefix := "Exception in executing query: "

  /** Every error inside the execution block is rethrown as this InvalidOperationException. */
  function WrapExecutionError(e: Exception): Exception
  {
    ThrowWith(InvalidOperationException, ExecutionErrorPrefix + e.message)
  }

  /**
   * The command of BuildItemFromAttribute: SQLQuery wins over Procedure; a
   * procedure runs as StoredProcedure with "@Cost" = "100"; neither is an
   * ArgumentException, which the surrounding catch turns into the
   * InvalidOperationException "Exception in executing query: ...".
   */
  function SelectCommand(attribute: ExtensionAttribute): (r: Result<ExtensionCommand>)
    ensures attribute.sqlQuery.Some? ==>
      r == Success(ExtensionCommand(attribute.sqlQuery.value, SqlCommands.Text, []))
    ensures attribute.sqlQuery.None? && attribute.procedure.Some? ==>
      r == Success(ExtensionCommand(attribute.procedure.value, SqlCommands.StoredProcedure,
                                    [SqlCommands.SqlParameter("@Cost", SqlCommands.Value("100"))]))
    ensures r.Failure? ==>
      attribute.sqlQuery.None? && attribute.procedure.None? &&
      r.error.kind == InvalidOperationException && StartsWith(r.error.message, ExecutionErrorPrefix)
  {
    if attribute.sqlQuery.Some? then Success(ExtensionCommand(attribute.sqlQuery.value, SqlCommands.Text, []))
    else if attribute.procedure.Some? then
      Success(ExtensionCommand(attribute.procedure.value, SqlCommands.StoredProcedure,
                               [SqlCommands.SqlParameter("@Cost", SqlCommands.Value("100"))]))
    else Failure(WrapExecutionError(ThrowWith(ArgumentException,
      "Must specify either a SQLQuery or Procedure in the SQL input binding")))
  }

  /**
   * BuildItemFromAttribute of the query converter: the connection field is
   * updated first (its errors pass through unwrapped), then the selected
   * command is run; `execute` stands for filling the data table and
   * serializing it, and its errors come back wrapped.
   */
  function BuildItemFromAttribute(connection: Option<ConnectionWrapper>, attribute: ExtensionAttribute,
                                  execute: ExtensionCommand -> Result<string>)
    : (r: (Option<ConnectionWrapper>, Result<string>))
    ensures BuildConnection(connection, attribute).Failure? ==>
      r == (connection, Failure(BuildConnection(connection, attribute).error))
    ensures BuildConnection(connection, attribute).Success? ==>
      r.0 == Some(BuildConnection(connection, attribute).value)
    ensures BuildConnection(connection, attribute).Success? && r.1.Failure? ==>
      r.1.error.kind == InvalidOperationException && StartsWith(r.1.error.message, ExecutionErrorPrefix)
  {
    match BuildConnection(connection, attribute)
    case Failure(e) => (connection, Failure(e))
    case Success(wrapper) =>
      match SelectCommand(attribute)
      case Failure(e) => (Some(wrapper), Failure(e))
      case Success(command) =>
        match execute(command)
        case Failure(e) => (Some(wrapper), Failure(WrapExecutionError(e)))
        case Success(json) => (Some(wrapper), Success(json))
  }

  const JsonSuffix := " FOR JSON AUTO"

  /**
   * The FOR JSON query: the attribute's query with " FOR JSON AUTO"
   * appended; a null query contributes nothing, as C# concatenation with
   * null does.
   */
  function ForJsonQuery(attribute: ExtensionAttribute): (q: string)
    ensures |q| >= |JsonSuffix| && q[|q| - |JsonSuffix|..] == JsonSuffix
    ensures attribute.sqlQuery.Some? ==> q[..|q| - |JsonSuffix|] == attribute.sqlQuery.value
    ensures attribute.sqlQuery.None? ==> q == JsonSuffix
  {
    var q := (if attribute.sqlQuery.Some? then attribute.sqlQuery.value else "") + JsonSuffix;
    assert q[|q| - |JsonSuffix|..] == JsonSuffix;
    q
  }

  /** The concatenation of the rows' first column, in order. */
  function Concat(rows: seq<string>): string
  {
    if |rows| == 0 then "" else Concat(rows[..|rows| - 1]) + rows[|rows| - 1]
  }

  /** Concatenation distributes over batches of rows. */
  lemma {:induction false} ConcatAppend(a: seq<string>, b: seq<string>)
    ensures Concat(a + b) == Concat(a) + Concat(b)
    decreases |b|
  {
    if |b| > 0 {
      assert (a + b)[..|a + b| - 1] == a + b[..|b| - 1];
      ConcatAppend(a, b[..|b| - 1]);
    } else {
      assert a + b == a;
    }
  }

  /** The reader loop: `result += reader[0]` for every row. */
  method ConcatenateRows(rows: seq<string>) returns (result: string)
    ensures result == Concat(rows)
  {
    result := "";
    var i := 0;
    while i < |rows|
      invariant 0 <= i <= |rows|
      invariant result == Concat(rows[..i])
    {
      assert rows[..i + 1][..i] == rows[..i];
      result := result + rows[i];
      i := i + 1;
    }
    assert rows[..|rows|] == rows;
  }

  /**
   * BuildItemFromAttribute of the generics converter: the FOR JSON query is
   * read row by row (`read` stands for executing it and yielding column 0
   * of each row) and the pieces are concatenated; read errors come back
   * wrapped. Connection errors pass through unwrapped.
   */
  method ReadJson(connection: Option<ConnectionWrapper>, attribute: ExtensionAttribute,
                  read: string -> Result<seq<string>>)
    returns (newConnection: Option<ConnectionWrapper>, r: Result<string>)
    ensures BuildConnection(connection, attribute).Failure? ==>
      newConnection == connection && r == Failure(BuildConnection(connection, attribute).error)
    ensures BuildConnection(connection, attribute).Success? ==>
      newConnection == Some(BuildConnection(connection, attribute).value) &&
      match read(ForJsonQuery(attribute))
      case Failure(e) => r == Failure(WrapExecutionError(e))
      case Success(rows) => r == Success(Concat(rows))
  {
    var built := BuildConnection(connection, attribute);
    if built.Failure? {
      return connection, Failure(built.error);
    }
    newConnection := Some(built.value);
    var rows := read(ForJsonQuery(attribute));
    if rows.Failure? {
      return newConnection, Failure(WrapExecutionError(rows.error));
    }
    var text := ConcatenateRows(rows.value);
    r := Success(text);
  }
}
