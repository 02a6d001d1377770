/**
 * The input converters of the earliest `SqlBinding` revision: a
 * converter keeps the connection wrapper it was given, or builds one from
 * configuration on first use and keeps it afterwards.
 */
module OldestConverters {
  import opened Common
  import BindingUtilities
  import SqlCommands

  /** SqlConnectionWrapper: the connection string it was built from. */
  datatype ConnectionWrapper = ConnectionWrapper(connectionString: Option<string>)

  /** The attribute as this revision reads it. */
  datatype OldestAttribute = OldestAttribute(command: SqlCommands.SqlAttribute, connectionStringSetting: Option<string>)

  /**
   * BuildConnection: a supplied wrapper is returned as it is; otherwise a
   * null setting name is an InvalidOperationException, a missing
   * configuration an ArgumentNullException, and a new wrapper holds the
   * looked-up connection string.
   */
  function BuildConnection(connection: Option<ConnectionWrapper>, attribute: OldestAttribute,
                           configuration: Option<BindingUtilities.Configuration>): (r: Result<ConnectionWrapper>)
    ensures connection.Some? ==> r == Success(connection.value)
    ensures connection.None? && attribute.connectionStringSetting.None? ==> r == Failure(Throw(InvalidOperationException))
    ensures connection.None? && attribute.connectionStringSetting.Some? && configuration.None? ==>
      r == Failure(Throw(ArgumentNullException))
    ensures connection.None? && r.Success? ==>
      configuration.Some? && attribute.connectionStringSetting.Some? &&
      r.value.connectionString ==
        BindingUtilities.GetConnectionStringOrSetting(configuration.value, attribute.connectionStringSetting.value)
  {
    if connection.Some? then Success(connection.value)
    else if attribute.connectionStringSetting.None? then Failure(Throw(InvalidOperationException))
    else if configuration.None? then Failure(Throw(ArgumentNullException))
    else Success(ConnectionWrapper(
      BindingUtilities.GetConnectionStringOrSetting(configuration.value, attribute.connectionStringSetting.value)))
  }

  /**
   * Once a wrapper has been built it is kept: building again from it,
   * whatever the attribute and configuration, yields the same wrapper.
   */
  lemma WrapperIsKept(attribute: OldestAttribute, configuration: Option<BindingUtilities.Configuration>,
                      later: OldestAttribute, laterConfiguration: Option<BindingUtilities.Configuration>)
    requires BuildConnection(None, attribute, configuration).Success?
    ensures var first := BuildConnection(None, attribute, configuration).value;
      BuildConnection(Some(first), later, laterConfiguration) == Success(first)
  {
  }

  /** SqlConverter: converts an attribute into a SqlCommand, caching the connection. */
  class SqlConverter {
    var connection: Option<ConnectionWrapper>
    const configuration: Option<BindingUtilities.Configuration>

    /** The constructor used by tests: a wrapper is supplied. */
    constructor FromWrapper(wrapper: Option<ConnectionWrapper>)
      ensures connection == wrapper && configuration == None
    {
      connection := wrapper;
      configuration := None;
    }

    /** The constructor used by the host: a null configuration is rejected. */
    static method FromConfiguration(config: Option<BindingUtilities.Configuration>)
      returns (converter: SqlConverter?, error: Option<Exception>)
      ensures config.None? ==> converter == null && error == Some(Throw(ArgumentNullException))
      ensures config.Some? ==>
        converter != null && fresh(converter) && error == None &&
        converter.connection == None && converter.configuration == config
    {
      if config.None? {
        return null, Some(Throw(ArgumentNullException));
      }
      converter := new SqlConverter.WithConfiguration(config.value);
      error := None;
    }

    constructor WithConfiguration(config: BindingUtilities.Configuration)
      ensures connection == None && configuration == Some(config)
    {
      connection := None;
      configuration := Some(config);
    }

    /**
     * Convert: the connection field is replaced by BuildConnection's result
     * (kept when that throws), then a Text command with the attribute's
     * text gets the parameters of the oldest grammar, in which "null" is
     * an ordinary value.
     */
    method Convert(attribute: OldestAttribute) returns (command: SqlCommands.SqlCommand?, error: Option<Exception>)
      modifies this
      ensures var built := BuildConnection(old(connection), attribute, configuration);
        var parsed := SqlCommands.ParameterList(attribute.command.parameters, false);
        (built.Failure? ==> connection == old(connection) && command == null && error == Some(built.error)) &&
        (built.Success? ==> connection == Some(built.value)) &&
        (built.Success? && parsed.error.Some? ==> command == null && error == parsed.error) &&
        (built.Success? && parsed.error.None? ==>
           command != null && fresh(command) && error == None &&
           command.commandText == attribute.command.commandText &&
           command.commandType == SqlCommands.Text &&
           command.parameters == parsed.added)
    {
      var built := BuildConnection(connection, attribute, configuration);
      if built.Failure? {
        return null, Some(built.error);
      }
      connection := Some(built.value);
      var created := new SqlCommands.SqlCommand(attribute.command.commandText);
      error := SqlCommands.ParseParameters(attribute.command.parameters, created, false);
      if error.Some? {
        return null, error;
      }
      command := created;
    }
  }
}
