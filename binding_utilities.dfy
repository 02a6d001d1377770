/**
 * Helpers shared by the current input and output bindings: resolving the
 * connection string from configuration, quoting identifiers and string
 * literals for T-SQL, and recognising fatal SQL errors.
 */
module BindingUtilities {
  import opened Common

  /** App settings and connection strings, by name (a missing name reads as null). */
  type Configuration = map<string, string>

  function GetConnectionStringOrSetting(configuration: Configuration, name: string): Option<string>
  {
    if name in configuration then Some(configuration[name]) else None
  }

  /**
   * GetConnectionString: the setting name must be non-empty and the
   * configuration present; the value is then looked up by that name.
   */
  function GetConnectionString(setting: Option<string>, configuration: Option<Configuration>): (r: Result<Option<string>>)
    ensures (setting.None? || setting == Some("")) ==> r == Failure(Throw(ArgumentException))
    ensures setting.Some? && setting.value != "" && configuration.None? ==> r == Failure(Throw(ArgumentNullException))
    ensures setting.Some? && setting.value != "" && configuration.Some? ==> r.Success?
    ensures r.Success? ==>
      setting.Some? && configuration.Some? &&
      r.value == GetConnectionStringOrSetting(configuration.value, setting.value)
  {
    if setting.None? || setting.value == "" then Failure(Throw(ArgumentException))
    else if configuration.None? then Failure(Throw(ArgumentNullException))
    else Success(GetConnectionStringOrSetting(configuration.value, setting.value))
  }

  /**
   * AsBracketQuotedString: "[" + s with every ']' doubled + "]". The text
   * between the brackets has every ']' paired, and undoubling it gives s
   * back, so the quoted identifier always names s.
   */
  function AsBracketQuotedString(s: string): (r: string)
    ensures |r| >= 2 && r[0] == '[' && r[|r| - 1] == ']'
    ensures AllDoubled(r[1..|r| - 1], ']')
    ensures Undouble(r[1..|r| - 1], ']') == s
  {
    UndoubleReplace(s, ']');
    ReplaceDoubles(s, ']');
    var r := "[" + Replace(s, "]", "]]") + "]";
    assert r[1..|r| - 1] == Replace(s, "]", "]]");
    r
  }

  /** AsSingleQuoteEscapedString: every "'" doubled; undoubling gives s back. */
  function AsSingleQuoteEscapedString(s: string): (r: string)
    ensures AllDoubled(r, '\'')
    ensures Undouble(r, '\'') == s
    ensures '\'' !in s ==> r == s
  {
    UndoubleReplace(s, '\'');
    ReplaceDoubles(s, '\'');
    ReplaceAbsentChar(s, '\'');
    Replace(s, "'", "''")
  }

  lemma {:induction false} ReplaceAbsentChar(s: string, c: char)
    ensures c !in s ==> Replace(s, [c], [c, c]) == s
  {
    if |s| > 0 && c !in s {
      ReplaceAbsentChar(s[1..], c);
      assert [s[0]] + s[1..] == s;
    }
  }

  /** AsSingleQuotedString: the escaped text inside single quotes. */
  function AsSingleQuotedString(s: string): (r: string)
    ensures |r| >= 2 && r[0] == '\'' && r[|r| - 1] == '\''
    ensures AllDoubled(r[1..|r| - 1], '\'')
    ensures Undouble(r[1..|r| - 1], '\'') == s
  {
    var r := "'" + AsSingleQuoteEscapedString(s) + "'";
    assert r[1..|r| - 1] == AsSingleQuoteEscapedString(s);
    r
  }

  /** Different names never quote to the same literal or identifier. */
  lemma QuotingInjective(a: string, b: string)
    ensures AsBracketQuotedString(a) == AsBracketQuotedString(b) ==> a == b
    ensures AsSingleQuotedString(a) == AsSingleQuotedString(b) ==> a == b
  {
  }

  predicate IsSevereSql(e: Exception)
  {
    e.kind.SqlException? && e.kind.severity >= 20
  }

  /**
   * IsFatalSqlException: the exception, or its immediate inner exception,
   * is a SqlException of class 20 or more.
   */
  function IsFatalSqlException(e: Exception): (fatal: bool)
    ensures fatal <==> exists x :: x in [e] + (if e.inner.Some? then [e.inner.value] else []) && IsSevereSql(x)
  {
    var levels := [e] + (if e.inner.Some? then [e.inner.value] else []);
    assert levels[0] == e && (e.inner.Some? ==> levels[1] == e.inner.value);
    IsSevereSql(e) || (e.inner.Some? && IsSevereSql(e.inner.value))
  }

  /**
   * The rule looks one level deep: a severe SqlException is fatal bare or
   * wrapped once, but not when wrapped twice in non-SQL exceptions, and a
   * class-19 SqlException never is.
   */
  lemma FatalLooksOneLevelDeep(severe: Exception, k1: ExceptionKind, k2: ExceptionKind, m: string)
    requires IsSevereSql(severe)
    requires !k1.SqlException? && !k2.SqlException?
    ensures IsFatalSqlException(severe)
    ensures IsFatalSqlException(Exception(k1, m, Some(severe)))
    ensures !IsFatalSqlException(Exception(k1, m, Some(Exception(k2, m, Some(severe)))))
    ensures !IsFatalSqlException(Exception(SqlException(severe.kind.number, 19), m, None))
  {
  }
}
