/**
 * The very first `SQLBinding` prototype: a string input binding that runs
 * the attribute's query and renders each row as a product line. Its
 * credential grammar is laxer than the converters': it reads "Username"
 * and "Password", does not check how many '=' an entry has, and fails with
 * the runtime's own exceptions when an entry, the password or the user
 * name is missing.
 */
module ExtensionBinding {
  import opened Common
  import ExtensionConverters
  import SqlCommands

  datatype BindingAttribute = BindingAttribute(
    connectionString: Option<string>,
    authentication: Option<string>,
    sqlQuery: Option<string>)

  /** The SqlCredential of the prototype: a user name and the password's characters. */
  datatype LaxCredential = LaxCredential(username: string, password: string)

  /** The SqlConnection the query runs on. */
  datatype Connection = Connection(connectionString: string, credential: Option<LaxCredential>)

  /**
   * The dictionary of the prototype: items[0] and items[1] of each entry's
   * split on '=' (an entry without '=' has no items[1]:
   * IndexOutOfRangeException; extra items are ignored), and Dictionary.Add
   * rejects a repeated key.
   */
  function LaxPairs(entries: seq<string>, acc: map<string, string>): Result<map<string, string>>
  {
    if |entries| == 0 then Success(acc)
    else
      var items := Split(entries[0], '=');
      if |items| < 2 then Failure(Throw(IndexOutOfRangeException))
      else if items[0] in acc then Failure(Throw(ArgumentException))
      else LaxPairs(entries[1..], acc[items[0] := items[1]])
  }

  /**
   * GetCredential of the prototype: a missing "Password" leaves the
   * password string null, and reading its Length is a
   * NullReferenceException; a missing "Username" leaves the user name null,
   * which the SqlCredential constructor rejects with an
   * ArgumentNullException.
   */
  function LaxCredentialFor(authentication: string): (r: Result<LaxCredential>)
    ensures var pairs := LaxPairs(SplitRemoveEmpty(authentication, ';'), map[]);
      (pairs.Failure? ==> r == Failure(pairs.error)) &&
      (pairs.Success? ==>
        (r.Success? <==> "Password" in pairs.value && "Username" in pairs.value) &&
        ("Password" !in pairs.value ==> r == Failure(Throw(NullReferenceException))) &&
        ("Password" in pairs.value && "Username" !in pairs.value ==> r == Failure(Throw(ArgumentNullException))) &&
        (r.Success? ==> r.value == LaxCredential(pairs.value["Username"], pairs.value["Password"])))
  {
    match LaxPairs(SplitRemoveEmpty(authentication, ';'), map[])
    case Failure(e) => Failure(e)
    case Success(dict) =>
      if "Password" !in dict then Failure(Throw(NullReferenceException))
      else if "Username" !in dict then Failure(Throw(ArgumentNullException))
      else Success(LaxCredential(dict["Username"], dict["Password"]))
  }

  /** GetCredential as the source runs it, with its two loops. */
  method GetCredential(authentication: string) returns (r: Result<LaxCredential>)
    ensures r == LaxCredentialFor(authentication)
  {
    var entries := SplitRemoveEmpty(authentication, ';');
    var dict: map<string, string> := map[];
    var i := 0;
    while i < |entries|
      invariant 0 <= i <= |entries|
      invariant LaxPairs(entries, map[]) == LaxPairs(entries[i..], dict)
    {
      assert entries[i..][1..] == entries[i + 1..];
      var items := Split(entries[i], '=');
      if |items| < 2 {
        return Failure(Throw(IndexOutOfRangeException));
      }
      if items[0] in dict {
        return Failure(Throw(ArgumentException));
      }
      dict := dict[items[0] := items[1]];
      i := i + 1;
    }
    if "Password" !in dict {
      return Failure(Throw(NullReferenceException));
    }
    var passwordText := dict["Password"];
    var password: string := [];
    var j := 0;
    while j < |passwordText|
      invariant 0 <= j <= |passwordText|
      invariant password == passwordText[..j]
    {
      password := password + [passwordText[j]];
      j := j + 1;
    }
    assert passwordText[..|passwordText|] == passwordText;
    if "Username" !in dict {
      return Failure(Throw(ArgumentNullException));
    }
    r := Success(LaxCredential(dict["Username"], password));
  }

  /** "Username=<u>;Password=<p>" yields that user name and password. */
  lemma LaxCredentialRoundTrip(u: string, p: string)
    requires ';' !in u && '=' !in u && ';' !in p && '=' !in p
    ensures LaxCredentialFor("Username" + "=" + u + ";" + "Password" + "=" + p) == Success(LaxCredential(u, p))
  {
    var s := "Username" + "=" + u + ";" + "Password" + "=" + p;
    ExtensionConverters.TwoEntries("Username", u, "Password", p);
    SameDictionary(SplitRemoveEmpty(s, ';'));
  }

  /**
   * Where the strict grammar succeeds, the lax one builds the same
   * dictionary: every entry there has exactly one '='.
   */
  lemma {:induction false} SameDictionary(entries: seq<string>)
    requires ExtensionConverters.AddPairs(entries, map[]).Success?
    ensures LaxPairs(entries, map[]) == ExtensionConverters.AddPairs(entries, map[])
  {
    SameDictionaryFrom(entries, map[]);
  }

  lemma {:induction false} SameDictionaryFrom(entries: seq<string>, acc: map<string, string>)
    requires ExtensionConverters.AddPairs(entries, acc).Success?
    ensures LaxPairs(entries, acc) == ExtensionConverters.AddPairs(entries, acc)
    decreases |entries|
  {
    if |entries| > 0 {
      var items := Split(entries[0], '=');
      SameDictionaryFrom(entries[1..], acc[items[0] := items[1]]);
    }
  }

  /** Two entries without ';' split back apart at the one ';' between them. */
  lemma TwoEntriesSplit(e1: string, e2: string)
    requires e1 != "" && e2 != "" && ';' !in e1 && ';' !in e2
    ensures SplitRemoveEmpty(e1 + ";" + e2, ';') == [e1, e2]
  {
    SplitJoin([e1, e2], ';');
    assert Join(";", [e1, e2]) == e1 + ";" + e2;
    assert [e1, e2][1..] == [e2] && [e2][1..] == [];
    assert NonEmpty([e1, e2]) == [e1, e2];
  }

  /** "Password=<a>=<b>" splits on '=' into its three pieces. */
  lemma ThreePieces(a: string, b: string)
    requires '=' !in a && '=' !in b
    ensures Split("Password" + "=" + a + "=" + b, '=') == ["Password", a, b]
  {
    SplitJoin(["Password", a, b], '=');
    assert ["Password", a, b][1..] == [a, b] && [a, b][1..] == [b];
    assert Join("=", [a, b]) == a + "=" + b;
    assert Join("=", ["Password", a, b]) == "Password" + "=" + a + "=" + b;
  }

  /**
   * A password containing '=' is cut at it: the lax grammar keeps only the
   * text before the second '=', where the strict grammar rejects the entry.
   */
  lemma ExtraEqualsTruncates(u: string, a: string, b: string)
    requires ';' !in u && '=' !in u && ';' !in a && '=' !in a && ';' !in b && '=' !in b
    ensures LaxCredentialFor("Username" + "=" + u + ";" + "Password" + "=" + a + "=" + b) == Success(LaxCredential(u, a))
    ensures ExtensionConverters.CredentialFor(Some("Username" + "=" + u + ";" + "Password" + "=" + a + "=" + b)) ==
      Failure(Throw(ArgumentException))
  {
    var e1 := "Username" + "=" + u;
    var e2 := "Password" + "=" + a + "=" + b;
    assert e1 + ";" + e2 == "Username" + "=" + u + ";" + "Password" + "=" + a + "=" + b;
    assert e1[0] == 'U' && e2[0] == 'P';
    TwoEntriesSplit(e1, e2);
    SqlCommands.EntrySplitsInTwo("Username", u);
    ThreePieces(a, b);
    assert [e1, e2][1..] == [e2] && [e2][1..] == [];
    assert LaxPairs([e1, e2], map[]) == LaxPairs([e2], map["Username" := u]);
    assert LaxPairs([e2], map["Username" := u]) == LaxPairs([], map["Username" := u]["Password" := a]);
    assert ExtensionConverters.AddPairs([e1, e2], map[]) == ExtensionConverters.AddPairs([e2], map["Username" := u]);
  }

  /**
   * An Authentication string without "Username" leaves the user name null,
   * and the SqlCredential constructor throws ArgumentNullException.
   */
  lemma MissingUsernameFails(p: string)
    requires ';' !in p && '=' !in p
    ensures LaxCredentialFor("Password" + "=" + p) == Failure(Throw(ArgumentNullException))
  {
    var entry := "Password" + "=" + p;
    assert ';' !in entry && entry[0] == 'P';
    SplitOfFree(entry, ';');
    var entries: seq<string> := [entry];
    assert entries[1..] == [];
    assert NonEmpty(entries) == entries;
    SqlCommands.EntrySplitsInTwo("Password", p);
    assert LaxPairs(entries, map[]) == LaxPairs([], map["Password" := p]);
  }

  /** An entry without '=' is an IndexOutOfRangeException. */
  lemma EntryWithoutEqualsFails(entry: string, rest: seq<string>)
    requires entry != "" && '=' !in entry
    ensures LaxPairs([entry] + rest, map[]) == Failure(Throw(IndexOutOfRangeException))
  {
    SplitOfFree(entry, '=');
  }

  const IdLabel := "ID: "
  const NameLabel := ", Product Name: "
  const PriceLabel := ", Price: "

  /** The line rendered for one row; fewer than three columns is an IndexOutOfRangeException. */
  function RowLine(row: seq<string>): (r: Result<string>)
    ensures r.Success? <==> |row| >= 3
  {
    if |row| < 3 then Failure(Throw(IndexOutOfRangeException))
    else Success(IdLabel + row[0] + NameLabel + row[1] + PriceLabel + row[2] + "\n")
  }

  /**
   * A rendered row is one line: it starts with "ID: " and the first column,
   * ends in a newline, and has no other newline when the columns have none.
   */
  lemma RowLineShape(row: seq<string>)
    requires |row| >= 3
    ensures var line := RowLine(row).value;
      StartsWith(line, IdLabel + row[0]) && line[|line| - 1] == '\n' &&
      (('\n' !in row[0] && '\n' !in row[1] && '\n' !in row[2]) ==> '\n' !in line[..|line| - 1])
  {
    var text := IdLabel + row[0] + NameLabel + row[1] + PriceLabel + row[2];
    var line := text + "\n";
    assert line == RowLine(row).value;
    assert line[..|line| - 1] == text;
    assert '\n' !in IdLabel && '\n' !in NameLabel && '\n' !in PriceLabel;
  }

  /** The text of all rows, one line each, in reader order; the first short row fails it. */
  function Rendered(rows: seq<seq<string>>): Result<string>
  {
    if |rows| == 0 then Success("")
    else
      match Rendered(rows[..|rows| - 1])
      case Failure(e) => Failure(e)
      case Success(text) =>
        match RowLine(rows[|rows| - 1])
        case Failure(e) => Failure(e)
        case Success(line) => Success(text + line)
  }

  /** Rendering succeeds exactly when every row has at least three columns. */
  lemma {:induction false} RenderedSucceeds(rows: seq<seq<string>>)
    ensures Rendered(rows).Success? <==> forall i :: 0 <= i < |rows| ==> |rows[i]| >= 3
  {
    if |rows| > 0 {
      var init := rows[..|rows| - 1];
      RenderedSucceeds(init);
      assert forall i :: 0 <= i < |init| ==> init[i] == rows[i];
    }
  }

  /** Rendering distributes over consecutive batches of rows. */
  lemma {:induction false} RenderedAppend(a: seq<seq<string>>, b: seq<seq<string>>)
    requires Rendered(a).Success? && Rendered(b).Success?
    ensures Rendered(a + b) == Success(Rendered(a).value + Rendered(b).value)
    decreases |b|
  {
    if |b| == 0 {
      assert a + b == a;
      assert Rendered(a).value + Rendered(b).value == Rendered(a).value;
    } else {
      var init, last := b[..|b| - 1], b[|b| - 1];
      RenderedLast(b);
      RenderedAppend(a, init);
      RenderedAppendStep(a, init, last);
      assert b == init + [last];
    }
  }

  /** The inductive step of RenderedAppend: one more row at the end of the second run. */
  lemma RenderedAppendStep(a: seq<seq<string>>, init: seq<seq<string>>, last: seq<string>)
    requires Rendered(a).Success? && Rendered(init).Success? && RowLine(last).Success?
    requires Rendered(a + init) == Success(Rendered(a).value + Rendered(init).value)
    ensures Rendered(a + (init + [last])) == Success(Rendered(a).value + (Rendered(init).value + RowLine(last).value))
  {
    var ai := a + init;
    assert a + (init + [last]) == ai + [last];
    RenderedSnoc(ai, last);
    ConcatAssociative(Rendered(a).value, Rendered(init).value, RowLine(last).value);
  }

  /** Concatenating three texts does not depend on the grouping. */
  lemma ConcatAssociative(x: string, y: string, z: string)
    ensures (x + y) + z == x + (y + z)
  {
  }

  /** A rendered text is the rendering of all rows but the last, then the last row's line. */
  lemma RenderedLast(rows: seq<seq<string>>)
    requires |rows| > 0 && Rendered(rows).Success?
    ensures Rendered(rows[..|rows| - 1]).Success? && RowLine(rows[|rows| - 1]).Success?
    ensures Rendered(rows).value == Rendered(rows[..|rows| - 1]).value + RowLine(rows[|rows| - 1]).value
  {
  }

  /** One more row that renders adds its line at the end. */
  lemma RenderedSnoc(rows: seq<seq<string>>, row: seq<string>)
    requires Rendered(rows).Success? && RowLine(row).Success?
    ensures Rendered(rows + [row]) == Success(Rendered(rows).value + RowLine(row).value)
  {
    var all := rows + [row];
    assert all[..|all| - 1] == rows && all[|all| - 1] == row;
  }

  /** The reader loop: each row's line is appended to the result. */
  method RenderRows(rows: seq<seq<string>>) returns (r: Result<string>)
    ensures r == Rendered(rows)
  {
    var result := "";
    var i := 0;
    while i < |rows|
      invariant 0 <= i <= |rows|
      invariant Rendered(rows[..i]) == Success(result)
    {
      assert rows[..i + 1][..i] == rows[..i];
      var line := RowLine(rows[i]);
      if line.Failure? {
        RenderedFailureSticks(rows, i + 1);
        return Failure(line.error);
      }
      result := result + line.value;
      i := i + 1;
    }
    assert rows[..|rows|] == rows;
    r := Success(result);
  }

  lemma {:induction false} RenderedFailureSticks(rows: seq<seq<string>>, k: nat)
    requires k <= |rows|
    requires Rendered(rows[..k]).Failure?
    ensures Rendered(rows) == Rendered(rows[..k])
    decreases |rows| - k
  {
    if k < |rows| {
      assert rows[..k + 1][..k] == rows[..k];
      RenderedFailureSticks(rows, k + 1);
    } else {
      assert rows[..k] == rows;
    }
  }

  const MissingConnectionMessage := "Must specify a connection string to connect to your SQL server instance."
  const ExecutionErrorPrefix := "Exception in executing query: "

  /**
   * BuildItemFromAttribute of the prototype: a null connection string and
   * a bad Authentication string fail before the query runs; the credential
   * is attached only when Authentication is given; `read` stands for
   * opening the connection and reading the rows of the query, and every
   * error from reading or rendering comes back as a plain Exception whose
   * message starts with "Exception in executing query: ".
   */
  method BuildItemFromAttribute(attribute: BindingAttribute,
                                read: (Connection, Option<string>) -> Result<seq<seq<string>>>)
    returns (r: Result<string>)
    ensures attribute.connectionString.None? ==> r == Failure(ThrowWith(GeneralException, MissingConnectionMessage))
    ensures attribute.connectionString.Some? && attribute.authentication.Some? &&
            LaxCredentialFor(attribute.authentication.value).Failure? ==>
      r == Failure(LaxCredentialFor(attribute.authentication.value).error)
    ensures r.Success? ==>
      attribute.connectionString.Some? &&
      var credential := if attribute.authentication.Some? then Some(LaxCredentialFor(attribute.authentication.value).value) else None;
      var rows := read(Connection(attribute.connectionString.value, credential), attribute.sqlQuery);
      rows.Success? && Rendered(rows.value) == Success(r.value)
    ensures r.Failure? && attribute.connectionString.Some? &&
            (attribute.authentication.None? || LaxCredentialFor(attribute.authentication.value).Success?) ==>
      r.error.kind == GeneralException && StartsWith(r.error.message, ExecutionErrorPrefix)
  {
    if attribute.connectionString.None? {
      return Failure(ThrowWith(GeneralException, MissingConnectionMessage));
    }
    var credential: Option<LaxCredential> := None;
    if attribute.authentication.Some? {
      var c := GetCredential(attribute.authentication.value);
      if c.Failure? {
        return Failure(c.error);
      }
      credential := Some(c.value);
    }
    var rows := read(Connection(attribute.connectionString.value, credential), attribute.sqlQuery);
    if rows.Failure? {
      return Failure(ThrowWith(GeneralException, ExecutionErrorPrefix + rows.error.message));
    }
    var text := RenderRows(rows.value);
    if text.Failure? {
      return Failure(ThrowWith(GeneralException, ExecutionErrorPrefix + text.error.message));
    }
    r := Success(text.value);
  }
}
