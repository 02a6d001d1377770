# Azure SQL bindings for Azure Functions, modelled in Dafny

This project models the core of the Azure SQL binding extension for Azure
Functions. The extension lets a function read rows from a SQL table (input
binding), write rows to one (output binding), and run when the rows of a
table change (trigger). Several revisions of the extension sit side by side
in the repository, and each is modelled on its own terms:

- the first extension (`src/SQLExtension`): credential parsing, connection
  building, the FOR JSON query and the buffered and immediate collectors;
- the second binding (`src/SqlBinding`): parameter parsing, command
  building, row dictionaries, the converters, the `async void` and the
  error-wrapping collectors, the change-tracking converter, both table
  watchers and the trigger listener with its failure reset;
- the current binding (`src`, `src/TriggerBinding`, `src/Common`): the
  quoting helpers and `ParseParameters`, `SqlObject` names, `SqlOptions`,
  `Utils.AsBool`, the upsert collector (table information, MERGE or
  INSERT, last row per primary key, serialized properties), the table
  change monitor (batch, lease-renewal counter, new global version, key
  types, cached query fragments), the trigger utilities, the listener
  lifecycle and the scale monitor and target scaler.

The database is abstract throughout. What a query returns, or the exception
it throws, is an input; a command the code builds is an output string; the
meaning of the T-SQL is not modelled. JSON, reflection and the T-SQL parser
are abstract in the same way: a POCO row is a map from property name to the
text of its value, the POCO's member and property names are inputs, and
`SqlObject` starts from the parsed (schema, name) pair. An `Exception`
value stands for a thrown .NET exception (its kind, its message where the
code composes one, and its inner exception). `None` stands for a C# null.

Objects whose fields the code updates are classes with `modifies` clauses:
the collectors' buffers, the change monitors and watchers with their batch,
state and lease-renewal counter, the listeners and `SqlOptions`. Each keeps
an invariant. For example, the collectors that keep a failed batch keep
"the batches flushed, then what is buffered, is everything added", while
each insert is recorded with the rows it actually wrote: the DataAdapter
commits row by row, so a failed insert may have written a prefix of its
batch. Loops in the source are loops here,
proved against a specification function: the credential parser, the
command builders, the MERGE builders, the HashSet scan of a batch and the
scale vote. Pure code becomes functions with lemmas.

Where the code and its documentation disagree, the model follows the code.
The points where this shows:

- `ExtensionConverters.SuggestedFormatRejected`: the "User ID =<userid>;Password =<password>"
  format that the error messages suggest is itself rejected, because the
  key keeps its trailing space.
- `ExtensionConverters.BuildConnection`: a null connection string throws
  even when a connection wrapper is supplied, and a new wrapper is built
  only when none is given.
- `Scaling.LimitWrapsAround`: the scale-out limit `workerCount * maxChangesPerWorker`
  is 32-bit `int` arithmetic and wraps around.
- `TriggerUtils.UpperCasePrecisionType`: the length rule of the primary-key
  types compares case-insensitively, but the precision rule is
  case-sensitive, so "DECIMAL" keeps its bare name.
- `TableWatcher.HeldBatchNeverRenewed`: the older watcher's documentation
  describes a processing state that its loop never enters (see Findings).

The main flow of each revision follows its code as written. Where that code
is evidently wrong, the corrected definition stands beside it (see Findings).

## Model

| member | source | states |
|---|---|---|
| Utils.AsBool | src/Utils.cs:67-79 | "true", "1", "yes" in any letter case give true; "false", "0", "no" give false; every other string gives the default |
| Utils.AsBoolIgnoresCase | src/Utils.cs:69 | strings equal up to letter case read as the same boolean |
| Utils.DefaultMattersOnlyForOtherStrings | src/Utils.cs:77-78 | the default decides the result exactly for strings that lower-case to none of the six words |
| Utils.GetEnvironmentVariableAsBool | src/Utils.cs:35-44 | an unset or empty variable gives the default; any other value is read by AsBool |
| Utils.GetConfigSettingAsBool | src/Utils.cs:53-56 | a missing setting gives the default; a present one is read by AsBool |
| Utils.DefaultTextReadsBack | src/Utils.cs:55 | the default's own text "True"/"False" reads back as that default whatever fallback AsBool is given |
| Utils.AsBoolExamples | src/Utils.cs:67-79 | the unit-test words in mixed case read as true or false; "2" reads as the default |
| Options.SqlOptions.constructor | src/Common/SqlOptions.cs:19-40 | a new options object holds MaxBatchSize 100, PollingIntervalMs 1000 and MaxChangesPerWorker 1000, within the bounds |
| Options.SqlOptions.SetMaxBatchSize | src/Common/SqlOptions.cs:50-58 | a value of 0 or less is an ArgumentOutOfRangeException and keeps the old value; any other value reads back exactly; the other two options do not change |
| Options.SqlOptions.SetPollingIntervalMs | src/Common/SqlOptions.cs:68-78 | a value below 100 is an ArgumentException naming the 100 ms minimum and keeps the old value; any other value reads back exactly; the other two options do not change |
| Options.SqlOptions.SetMaxChangesPerWorker | src/Common/SqlOptions.cs:89-97 | a value below 1 is an ArgumentException and keeps the old value; any other value reads back exactly; the other two options do not change |
| Options.SqlOptions.Clone | src/Common/SqlOptions.cs:114-123 | a fresh object holding the same three values, within the bounds |
| Options.SqlOptions.FormatEntries | src/Common/SqlOptions.cs:104-109 | exactly three distinct keys, MaxBatchSize, PollingIntervalMs and MaxChangesPerWorker, each with its current value |
| Options.SqlOptions.Format | src/Common/SqlOptions.cs:102-112 | the indented JSON object: an opening brace, then the members `  "MaxBatchSize": v`, `  "PollingIntervalMs": v` and `  "MaxChangesPerWorker": v` with the current values, in that order, one per line and separated by commas, then the closing brace |
| Options.SqlOptions.FormatOpensWithMaxBatchSize | src/Common/SqlOptions.cs:104-106 | the text opens with the brace and the MaxBatchSize member's name |
| Options.ThreeMembers | src/Common/SqlOptions.cs:104-111 | an object of three members writes them as three lines separated by commas, in their order |
| BindingUtilities.GetConnectionString | src/SqlBindingUtilities.cs:37-49 | a null or empty setting name is an ArgumentException; a null configuration under a non-empty name an ArgumentNullException; a non-empty name with a configuration succeeds, with the value configured under that name (null when absent) |
| BindingUtilities.AsBracketQuotedString | src/SqlBindingUtilities.cs:154-157 | the result is bracketed, every ']' inside is doubled, and undoubling the inside gives the name back |
| BindingUtilities.AsSingleQuoteEscapedString | src/SqlBindingUtilities.cs:174-177 | every "'" is doubled, undoubling gives the string back, and a string without quotes is unchanged |
| BindingUtilities.AsSingleQuotedString | src/SqlBindingUtilities.cs:164-167 | the escaped string inside single quotes; undoubling the inside gives the string back |
| BindingUtilities.QuotingInjective | src/SqlBindingUtilities.cs:154-177 | different strings never quote to the same bracketed identifier or the same single-quoted literal |
| BindingUtilities.IsFatalSqlException | src/SqlBindingUtilities.cs:247-251 | fatal exactly when the exception itself or its immediate inner exception is a SqlException of class 20 or more |
| BindingUtilities.FatalLooksOneLevelDeep | src/SqlBindingUtilities.cs:247-251 | a SqlException of class 20 or more is fatal bare or wrapped once, not when wrapped twice in other exceptions; class 19 never is |
| SqlCommands.SqlCommand.constructor | src/SqlBindingUtilities.cs:122-126 | a new command holds the attribute's text, type Text and no parameters |
| SqlCommands.ParseParameters | src/SqlBindingUtilities.cs:65-106 | a null command is an ArgumentNullException; otherwise the command gains, in order, the parameters of the comma-separated entries before the first malformed one, and that entry's exception is thrown; text and type are unchanged |
| SqlCommands.PlanCommand | src/SqlBindingUtilities.cs:120-136 | a built command keeps the attribute's text and type; a type other than Text and StoredProcedure is an ArgumentException |
| SqlCommands.BuildCommand | src/SqlBindingUtilities.cs:120-136 | a fresh command exactly when PlanCommand succeeds, with its text, type and parameters; otherwise PlanCommand's exception |
| SqlCommands.WrittenEntryParses | src/SqlBindingUtilities.cs:84-104 | a well-formed parameter written as name=value parses back to itself |
| SqlCommands.WrittenEntriesParse | src/SqlBindingUtilities.cs:80-105 | a list of well-formed written entries parses to exactly those parameters without error |
| SqlCommands.ParametersRoundTrip | src/SqlBindingUtilities.cs:73-105 | writing well-formed parameters as "@a=x,@b=y,..." and parsing the string gives back exactly those parameters, in order |
| SqlCommands.ParseStopsAtFirstError | src/SqlBindingUtilities.cs:80-95 | a failed parse added exactly the parameters of the entries before the first failing entry, and reports that entry's exception |
| SqlCommands.VerbatimValuesOnly | src/SqlBinding/SqlConverters.cs:242 | without the null keyword (the oldest revision) no value becomes DBNull |
| SqlCommands.EmptyStringAddsNothing | src/SqlBindingUtilities.cs:73 | an empty parameter string adds nothing, as a missing one does |
| SqlCommands.DoubledEqualsRejected | src/SqlBindingUtilities.cs:85-90 | "@param2==param2" is rejected |
| SqlCommands.TrailingEqualsRejected | src/SqlBindingUtilities.cs:85-90 | "@param2=param2=" is rejected |
| SqlCommands.MissingEqualsRejected | src/SqlBindingUtilities.cs:85-90 | "@param2;param2" is rejected |
| SqlCommands.MissingAtRejected | src/SqlBindingUtilities.cs:91-94 | "param2=param2" is rejected |
| SqlCommands.NullKeywordValue | src/SqlBindingUtilities.cs:97-104 | an `@name=value` entry whose value is "null" in any letter case becomes DBNull with the null keyword and stays verbatim without it |
| SqlCommands.MixedCaseNull | src/SqlBindingUtilities.cs:97 | "NuLl" equals "null" under the case-insensitive comparison |
| SqlCommands.EmptyValue | src/SqlBindingUtilities.cs:101-104 | an empty value stays the empty string |
| LegacyBindingUtilities.BuildConnection | src/SqlBinding/SqlBindingUtilities.cs:26-38 | a null or empty setting name is an InvalidOperationException; a null configuration under a non-empty name an ArgumentNullException; a non-empty name with a configuration succeeds, with the connection string configured under that name |
| LegacyBindingUtilities.FieldNames | src/SqlBinding/SqlBindingUtilities.cs:132-135 | the reader's column names, in column order |
| LegacyBindingUtilities.Lookup | src/SqlBinding/SqlBindingUtilities.cs:141 | reader[name] succeeds exactly when some column has that name; otherwise an IndexOutOfRangeException |
| LegacyBindingUtilities.ColumnList.constructor | src/SqlBinding/SqlBindingUtilities.cs:128 | the caller's column list starts empty |
| LegacyBindingUtilities.ReadRow | src/SqlBinding/SqlBindingUtilities.cs:138-143 | the result is the dictionary of the listed columns, each with the reader's value; an absent column or a column listed twice throws |
| LegacyBindingUtilities.BuildDictionaryFromSqlRow | src/SqlBinding/SqlBindingUtilities.cs:128-144 | an empty column list is filled with the reader's column names and a non-empty one is left as it is; the result is the dictionary of the listed columns |
| LegacyBindingUtilities.RowDictionaryFailureSticks | src/SqlBinding/SqlBindingUtilities.cs:138-142 | a column that fails fails the whole dictionary with the same exception |
| LegacyBindingUtilities.RowDictionaryContents | src/SqlBinding/SqlBindingUtilities.cs:138-143 | a built dictionary has exactly the listed columns as keys, each valued by reader[column] |
| LegacyBindingUtilities.OwnColumnsResolve | src/SqlBinding/SqlBindingUtilities.cs:130-141 | every column name read from the reader itself resolves in that reader |
| OldestConverters.BuildConnection | src/SqlBinding/SqlConverters.cs:152-169 | a supplied wrapper is returned unchanged; otherwise a null setting name is an InvalidOperationException, a null configuration an ArgumentNullException, and the new wrapper holds the configured connection string |
| OldestConverters.WrapperIsKept | src/SqlBinding/SqlConverters.cs:155-168 | once built, a wrapper is returned by every later call, whatever the attribute and configuration |
| OldestConverters.SqlConverter.FromWrapper | src/SqlBinding/SqlConverters.cs:25-28 | the test constructor keeps the supplied wrapper |
| OldestConverters.SqlConverter.FromConfiguration | src/SqlBinding/SqlConverters.cs:37-40 | a null configuration is an ArgumentNullException; otherwise a converter with no connection yet |
| OldestConverters.SqlConverter.WithConfiguration | src/SqlBinding/SqlConverters.cs:37-40 | a converter holding the configuration and no connection |
| OldestConverters.SqlConverter.Convert | src/SqlBinding/SqlConverters.cs:50-56 | the connection field becomes BuildConnection's result; the command has the attribute's text, type Text and the oldest grammar's parameters, "null" kept as text; an exception of either step returns no command |
| ExtensionConverters.AddPairs | src/SQLExtension/SQLConverters.cs:187-198 | every failure is an ArgumentException (an entry that does not split into exactly two items, or a repeated key), and a success keeps every key already in the dictionary |
| ExtensionConverters.CredentialFor | src/SQLExtension/SQLConverters.cs:172-218 | null gives no credential and only null does; every failure is an ArgumentException; otherwise a credential comes back exactly when the entries parse and both "User ID" and "Password" are present |
| ExtensionConverters.GetCredential | src/SQLExtension/SQLConverters.cs:180-219 | the two loops compute CredentialFor: null gives no credential, a malformed or repeated entry or a missing "User ID" or "Password" is an ArgumentException, and the password is a piece of the authentication string |
| ExtensionConverters.EntryValueOccurs | src/SQLExtension/SQLConverters.cs:187-197 | the value of every well-formed entry occurs in the authentication string |
| ExtensionConverters.CredentialRoundTrip | src/SQLExtension/SQLConverters.cs:172-218 | "User ID=u;Password=p", in either order, yields exactly the credential (u, p) |
| ExtensionConverters.DuplicateKeyRejected | src/SQLExtension/SQLConverters.cs:197 | a key given twice is an ArgumentException from Dictionary.Add |
| ExtensionConverters.SuggestedFormatRejected | src/SQLExtension/SQLConverters.cs:194-209 | the "User ID =<userid>;Password =<password>" format that the messages suggest is itself rejected, because the keys keep the space |
| ExtensionConverters.BuildConnection | src/SQLExtension/SQLConverters.cs:152-165 | a null connection string is an ArgumentNullException even when a wrapper is given; a wrapper is created only when none is given; the parsed credential is set on it and its errors pass through |
| ExtensionConverters.SelectCommand | src/SQLExtension/SQLConverters.cs:94-119 | SQLQuery wins as a Text command; otherwise Procedure runs as StoredProcedure with "@Cost" = "100"; neither is an InvalidOperationException "Exception in executing query: ..." |
| ExtensionConverters.BuildItemFromAttribute | src/SQLExtension/SQLConverters.cs:85-123 | connection errors pass through unwrapped and leave the field as it was; after a built connection the field holds it and every later error is an InvalidOperationException with the execution prefix |
| ExtensionConverters.ForJsonQuery | src/SQLExtension/SQLGenericsConverter.cs:32 | the query followed by " FOR JSON AUTO"; a null query leaves only the suffix |
| ExtensionConverters.ConcatAppend | src/SQLExtension/SQLGenericsConverter.cs:161-166 | concatenating two runs of rows is concatenating each |
| ExtensionConverters.ConcatenateRows | src/SQLExtension/SQLGenericsConverter.cs:153-166 | the reader loop returns the concatenation of the rows' first column, in order |
| ExtensionConverters.ReadJson | src/SQLExtension/SQLGenericsConverter.cs:150-177 | connection errors pass through unwrapped; otherwise the field holds the new connection and the result is the concatenated rows of the FOR JSON query, or its error wrapped |
| ExtensionBinding.LaxCredentialFor | src/SQLExtension/SQLBinding/SQLBinding.cs:60-81 | the dictionary's failure passes through; otherwise a credential comes back exactly when both "Password" and "Username" are present, holding their values; a missing "Password" is a NullReferenceException, and a missing "Username" with a password present is the ArgumentNullException of the SqlCredential constructor |
| ExtensionBinding.GetCredential | src/SQLExtension/SQLBinding/SQLBinding.cs:60-81 | the two loops compute LaxCredentialFor: an entry without '=' is an IndexOutOfRangeException, a repeated key an ArgumentException, a missing "Password" a NullReferenceException, a missing "Username" an ArgumentNullException |
| ExtensionBinding.LaxCredentialRoundTrip | src/SQLExtension/SQLBinding/SQLBinding.cs:60-81 | "Username=u;Password=p" yields exactly the user name u and the password p |
| ExtensionBinding.SameDictionary | src/SQLExtension/SQLBinding/SQLBinding.cs:62-68 | wherever the converters' strict grammar builds a dictionary, this grammar builds the same one |
| ExtensionBinding.ExtraEqualsTruncates | src/SQLExtension/SQLBinding/SQLBinding.cs:66-67 | "Username=u;Password=a=b" yields the user name u and the password a, cut at the second '=', where the strict grammar rejects the entry |
| ExtensionBinding.MissingUsernameFails | src/SQLExtension/SQLBinding/SQLBinding.cs:78-80 | "Password=p" alone is the ArgumentNullException of `new SqlCredential(null, ...)` |
| ExtensionBinding.EntryWithoutEqualsFails | src/SQLExtension/SQLBinding/SQLBinding.cs:66-67 | an entry without '=' has no items[1]: IndexOutOfRangeException |
| ExtensionBinding.RowLine | src/SQLExtension/SQLBinding/SQLBinding.cs:46 | a row renders exactly when it has at least three columns; reader[2] of a shorter row is an IndexOutOfRangeException |
| ExtensionBinding.RowLineShape | src/SQLExtension/SQLBinding/SQLBinding.cs:46 | a rendered row is one line that starts with "ID: " and the first column, ends in a newline and has no other newline when the columns have none |
| ExtensionBinding.RenderedSucceeds | src/SQLExtension/SQLBinding/SQLBinding.cs:44-47 | all rows render exactly when every row has at least three columns |
| ExtensionBinding.RenderedAppend | src/SQLExtension/SQLBinding/SQLBinding.cs:44-47 | rendering two runs of rows is rendering each, one after the other |
| ExtensionBinding.RenderRows | src/SQLExtension/SQLBinding/SQLBinding.cs:42-48 | the reader loop's text is the rendering of all rows, or the first short row's error |
| ExtensionBinding.BuildItemFromAttribute | src/SQLExtension/SQLBinding/SQLBinding.cs:22-56 | a null connection string fails with its message; an Authentication string that LaxCredentialFor rejects (an entry without '=', a repeated key, a missing "Password" or "Username") fails with that exception unwrapped, before the try; a success is the rendering of the rows read with the parsed credential; every other failure is a plain Exception with the execution prefix |
| SqlObjects.ErrorMessage | src/SqlObject.cs:56-60 | the loop builds the header followed by one line per parse error |
| SqlObjects.ListedErrorsContents | src/SqlObject.cs:56-60 | the error text starts with the header and contains every parse error's line |
| SqlObjects.FromParsed | src/SqlObject.cs:48-72 | parse errors are one InvalidOperationException listing them, and an error-free parse succeeds; an absent schema is SCHEMA_NAME(), left unquoted and dropped from FullName; the name, an explicit schema and FullName are quoted by AsSingleQuotedString and AsSingleQuoteEscapedString, and each quoted field unquotes back to its plain name |
| SqlObjects.ToString | src/SqlObject.cs:78-81 | always Schema, '.', Name |
| SqlObjects.DefaultSchemaNames | src/SqlObject.cs:66-80 | a name without a schema keeps FullName to the name while ToString shows "SCHEMA_NAME()." before it |
| SqlObjects.ExplicitDefaultLookalike | src/SqlObject.cs:67-93 | a schema spelled "SCHEMA_NAME()" explicitly gives the same object as no schema at all |
| Scaling.Wrap32 | src/TriggerBinding/SqlTriggerScaleMonitor.cs:125 | a value in the 32-bit range, equal to the exact product when it fits and congruent to it modulo 2^32 |
| Scaling.Limit | src/TriggerBinding/SqlTriggerScaleMonitor.cs:125 | the product of workers and changes per worker as a C# `int`: in the 32-bit range, the exact product when it fits and congruent to it modulo 2^32 |
| Scaling.Window | src/TriggerBinding/SqlTriggerScaleMonitor.cs:119 | exactly five samples |
| Scaling.FirstAfter | src/TriggerBinding/SqlTriggerScaleMonitor.cs:145 | the first sample later than the reference time, every earlier one not later; none when no sample is later |
| Scaling.Vote | src/TriggerBinding/SqlTriggerScaleMonitor.cs:101-168 | fewer than five or no samples vote None; ScaleIn only for a decreasing window whose latest count one worker fewer still covers; ScaleOut only when the latest count exceeds the limit or the window increases |
| Scaling.Reference | src/TriggerBinding/SqlTriggerScaleMonitor.cs:143-145 | the first sample of the window taken less than 30 seconds before the latest; every earlier one is older |
| Scaling.NeverBothDirections | src/TriggerBinding/SqlTriggerScaleMonitor.cs:133-139 | no window of three or more samples is both increasing and decreasing |
| Scaling.VoteRules | src/TriggerBinding/SqlTriggerScaleMonitor.cs:119-166 | with five or more samples, both directions of each rule: ScaleOut exactly when the latest count exceeds the limit or an increasing window's 30-second extrapolation does; ScaleIn exactly when the limit covers the latest count and a decreasing window's latest count is covered one worker fewer; None exactly when neither holds |
| Scaling.ScanWindow | src/TriggerBinding/SqlTriggerScaleMonitor.cs:133-139 | the flags end true exactly when every sample exceeds the one before (isIncreasing), and when every sample is zero or below the one before (isDecreasing) |
| Scaling.GetScaleStatusCore | src/TriggerBinding/SqlTriggerScaleMonitor.cs:101-168 | the one-pass flag loop returns Vote |
| Scaling.GetScaleStatus | src/TriggerBinding/SqlTriggerScaleMonitor.cs:62-98 | the core's vote, or None when the core throws |
| Scaling.CoreNeverFails | src/TriggerBinding/SqlTriggerScaleMonitor.cs:143-145 | the reference sample always exists, so First never throws |
| Scaling.OnlyLastFiveMatter | src/TriggerBinding/SqlTriggerScaleMonitor.cs:119 | samples before the last five never change the vote |
| Scaling.NoWorkersScaleOut | src/TriggerBinding/SqlTriggerScaleMonitor.cs:125-128 | with no workers a positive latest count scales out |
| Scaling.LimitWrapsAround | src/TriggerBinding/SqlTriggerScaleMonitor.cs:125 | the limit is an `int` product that wraps: 3 workers of 1,000,000,000 give a negative limit and even an empty table scales out |
| Scaling.Samples | src/TriggerBinding/SqlTriggerScaleMonitor.cs:101 | samples ten seconds apart with the given counts |
| Scaling.IncreasingExamples | src/TriggerBinding/SqlTriggerScaleMonitor.cs:141-153 | an increasing window scales out exactly when its 30-second extrapolation exceeds the limit |
| Scaling.DecreasingToZeroScalesIn | src/TriggerBinding/SqlTriggerScaleMonitor.cs:157-164 | a window decreasing to zero with one worker scales in |
| Scaling.DecreasingAboveLimitKeeps | src/TriggerBinding/SqlTriggerScaleMonitor.cs:157-164 | a decreasing window above the reduced limit keeps the workers |
| Scaling.ExcessSamplesIgnored | src/TriggerBinding/SqlTriggerScaleMonitor.cs:119 | of seven samples only the last five decide |
| Scaling.FlatThenRisingKeeps | src/TriggerBinding/SqlTriggerScaleMonitor.cs:133-166 | a window neither increasing nor decreasing votes None |
| Scaling.DescriptorId | src/TriggerBinding/SqlTriggerScaleMonitor.cs:35 | the function id, "-SqlTrigger-" and the table's FullName |
| Scaling.DescriptorOfUnqualifiedTable | src/TriggerBinding/SqlTriggerScaleMonitor.cs:35 | for a table without a schema the id ends with the bare table name |
| Scaling.Concurrency | src/TriggerBinding/SqlTriggerTargetScaler.cs:32 | the host's instance concurrency when set, else the per-worker limit |
| Scaling.TargetWorkerCount | src/TriggerBinding/SqlTriggerTargetScaler.cs:37-50 | concurrency below 1 is an ArgumentOutOfRangeException; otherwise the ceiling of count over concurrency, which succeeds exactly when that ceiling fits `int` and is an OverflowException otherwise |
| Scaling.TargetBounds | src/TriggerBinding/SqlTriggerTargetScaler.cs:44 | counts in range always give a target; no changes need no workers and any change needs one at least |
| Scaling.TargetExamples | src/TriggerBinding/SqlTriggerTargetScaler.cs:44 | 6000/1000 is 6, 4500/1000 is 5, 1080/100 is 11, 100/1000 is 1 |
| Scaling.ProviderMaxChangesPerWorker | src/TriggerBinding/SqlScalerProvider.cs:37-40 | the app setting when non-zero, else the options value when non-zero, else 1000 |
| TriggerListener.Next | src/TriggerBinding/SqlTriggerListener.cs:46-85 | Stopped is never left; Running is reached only from NotInitialized by a start whose monitor does not throw; a stop or cancel acts only in Running and reaches Stopped |
| TriggerListener.StoppedIsTerminal | src/TriggerBinding/SqlTriggerListener.cs:65-79 | no calls after a stop change the state or reach the monitor |
| TriggerListener.RunningStopsOnce | src/TriggerBinding/SqlTriggerListener.cs:65-83 | from Running the monitor is never started again and stopped at most once |
| TriggerListener.MonitorStartedAndStoppedAtMostOnce | src/TriggerBinding/SqlTriggerListener.cs:63-85 | over any sequence of calls the monitor is started successfully at most once and stopped no more often than it was started successfully |
| TriggerListener.FailedStartRetried | src/TriggerBinding/SqlTriggerListener.cs:65-68 | a start whose monitor throws leaves NotInitialized, so a later start succeeds |
| TriggerListener.SqlTriggerListener.constructor | src/TriggerBinding/SqlTriggerListener.cs:39-40 | a new listener is NotInitialized and has not touched the monitor |
| TriggerListener.SqlTriggerListener.StartAsync | src/TriggerBinding/SqlTriggerListener.cs:63-70 | the state follows Next; the monitor is started only from NotInitialized and its exception propagates |
| TriggerListener.SqlTriggerListener.StopAsync | src/TriggerBinding/SqlTriggerListener.cs:76-85 | the state follows Next; the monitor is stopped only from Running |
| TriggerListener.SqlTriggerListener.Cancel | src/TriggerBinding/SqlTriggerListener.cs:46-49 | the same as StopAsync |
| LegacyTriggerListener.Begin | src/SqlBinding/TriggerBinding/SqlTriggerListener.cs:71-80 | only NotRegistered proceeds, to Registering; Registering and Registered are left alone with "already starting" and "already started" |
| LegacyTriggerListener.Finish | src/SqlBinding/TriggerBinding/SqlTriggerListener.cs:83-89 | a failed watcher resets to NotRegistered; success moves Registering to Registered and leaves any other status |
| LegacyTriggerListener.Stop | src/SqlBinding/TriggerBinding/SqlTriggerListener.cs:97-101 | a watcher that stops makes the status NotRegistered; one that throws leaves it |
| LegacyTriggerListener.StartFromNotRegistered | src/SqlBinding/TriggerBinding/SqlTriggerListener.cs:69-90 | an undisturbed start ends Registered, or NotRegistered when the watcher failed |
| LegacyTriggerListener.SecondStartWhileStarting | src/SqlBinding/TriggerBinding/SqlTriggerListener.cs:71-76 | a start arriving while one is awaited throws "already starting" and the first still finishes |
| LegacyTriggerListener.RestartAfterStop | src/SqlBinding/TriggerBinding/SqlTriggerListener.cs:97-101 | after a successful stop the listener starts again from any status |
| LegacyTriggerListener.StopDuringStartWins | src/SqlBinding/TriggerBinding/SqlTriggerListener.cs:84-100 | a stop while a start is awaited wins: the later compare-exchange finds NotRegistered and leaves it |
| LegacyTriggerListener.SqlTriggerListener.constructor | src/SqlBinding/TriggerBinding/SqlTriggerListener.cs:42 | a new listener is NotRegistered |
| LegacyTriggerListener.SqlTriggerListener.BeginStart | src/SqlBinding/TriggerBinding/SqlTriggerListener.cs:71-83 | status and exception follow Begin, and the watcher is started only when Begin lets it |
| LegacyTriggerListener.SqlTriggerListener.FinishStart | src/SqlBinding/TriggerBinding/SqlTriggerListener.cs:83-90 | the status follows Finish and the watcher's exception is rethrown |
| LegacyTriggerListener.SqlTriggerListener.StopAsync | src/SqlBinding/TriggerBinding/SqlTriggerListener.cs:97-101 | the watcher is stopped every time; the status follows Stop and the watcher's exception propagates |
| TriggerUtils.GetPrimaryKeyColumns | src/TriggerBinding/SqlTriggerUtils.cs:33-86 | no key row is an InvalidOperationException naming the table; otherwise every key column in reader order with its formatted type |
| TriggerUtils.UpperCaseLengthType | src/TriggerBinding/SqlTriggerUtils.cs:63-69 | the length rule ignores case: "VARCHAR" of length 20 is "VARCHAR(20)" |
| TriggerUtils.UpperCasePrecisionType | src/TriggerBinding/SqlTriggerUtils.cs:70-75 | the precision rule is case-sensitive: an upper-case "DECIMAL" keeps its bare name |
| TriggerUtils.LowerCasePrecisionType | src/TriggerBinding/SqlTriggerUtils.cs:70-75 | "decimal" with precision 18 and scale 2 is "decimal(18,2)" |
| TriggerUtils.ScalarRead | src/TriggerBinding/SqlTriggerUtils.cs:104-116 | a value is read exactly when a row came back and was not DBNull; an empty response and DBNull are InvalidOperationExceptions with their own messages |
| TriggerUtils.GetUserTableId | src/TriggerBinding/SqlTriggerUtils.cs:98-119 | the object id when the response holds one, else an InvalidOperationException |
| TriggerUtils.MinValidVersion | src/TriggerBinding/SqlTriggerUtils.cs:250-265 | the minimum valid version when the response holds one, else an InvalidOperationException before any row is inserted |
| TriggerUtils.DefaultLeasesTableName | src/TriggerBinding/SqlTriggerConstants.cs:12 | a bracketed name in the az_func schema that starts with "[az_func].[Leases_" |
| TriggerUtils.GetBracketedLeasesTableName | src/TriggerBinding/SqlTriggerUtils.cs:127-131 | a null or empty user name gives the default name; otherwise the user-defined format filled with the bracket-quoted user name |
| TriggerUtils.SplitAtFirstUnderscore | src/TriggerBinding/SqlTriggerUtils.cs:129 | "a_b" determines a and b when a has no '_' |
| TriggerUtils.IntToStringInjective | src/TriggerBinding/SqlTriggerUtils.cs:129 | distinct table ids are written differently |
| TriggerUtils.DefaultLeasesTableNamesDistinct | src/TriggerBinding/SqlTriggerUtils.cs:129 | distinct function and table id pairs get distinct default leases tables when function ids have no '_' |
| TriggerUtils.OldLeasesTableName | src/TriggerBinding/SqlTriggerUtils.cs:326 | an empty function id throws ArgumentException; a name without the function id gives "" (no migration); otherwise every occurrence is replaced by the old id |
| TriggerUtils.ReplaceSingleOccurrence | src/TriggerBinding/SqlTriggerUtils.cs:326 | with a single occurrence of the id, Replace substitutes exactly that one |
| TriggerUtils.OldLeasesOfDefaultName | src/TriggerBinding/SqlTriggerUtils.cs:326 | when the id occurs only where it was put, the old leases table is the old id's default name |
| TriggerUtils.CreationOutcome | src/TriggerBinding/SqlTriggerUtils.cs:159-173 | SQL error 2714 is swallowed; any other exception escapes unchanged |
| TriggerUtils.CreationOutcomeExamples | src/TriggerBinding/SqlTriggerUtils.cs:163 | only the number 2714 decides, whatever the severity; 2715 and non-SQL errors escape |
| ChangeTracking.GetChangeType | src/TriggerBinding/SqlTableChangeMonitor.cs:926-948 | a row without SYS_CHANGE_OPERATION is an ArgumentException; the decode succeeds exactly on "I", "U" and "D", and returns the change whose code it is; any other code is an InvalidDataException |
| ChangeTracking.ChangeTypeRoundTrip | src/TriggerBinding/SqlTableChangeMonitor.cs:932-943 | every change type reads back from its own code |
| ChangeTracking.Project | src/TriggerBinding/SqlTableChangeMonitor.cs:957-966 | succeeds exactly for distinct names, with exactly those keys, each the row's value or null; a repeated name makes Add throw ArgumentException |
| ChangeTracking.BuildDictionary | src/TriggerBinding/SqlTableChangeMonitor.cs:898-903 | the foreach loop computes Project |
| ChangeTracking.EntryFor | src/TriggerBinding/SqlTableChangeMonitor.cs:889-905 | the entry's operation is the decoded change; a delete carries only the primary-key values, any other change the user-table columns; decode errors propagate, and distinct names never fail |
| ChangeTracking.Entries | src/TriggerBinding/SqlTableChangeMonitor.cs:884-908 | succeeds exactly when every row's entry does, with one entry per row in row order |
| ChangeTracking.EntriesStep | src/TriggerBinding/SqlTableChangeMonitor.cs:887-906 | the entries of a prefix extend by the next row's entry, or fail with its error |
| ChangeTracking.EntriesPrefixFailure | src/TriggerBinding/SqlTableChangeMonitor.cs:887-906 | the first failing row decides the failure of the whole batch |
| ChangeTracking.BuildEntry | src/TriggerBinding/SqlTableChangeMonitor.cs:889-905 | the step-by-step construction computes EntryFor |
| ChangeTracking.ParseLong | src/TriggerBinding/SqlTableChangeMonitor.cs:994-995 | null is an ArgumentNullException, "" and non-digit text a FormatException; a parsed value lies in the 64-bit range |
| ChangeTracking.ParseLongFormatted | src/TriggerBinding/SqlTableChangeMonitor.cs:995 | every 64-bit value reads back from its decimal text |
| ChangeTracking.Versions | src/TriggerBinding/SqlTableChangeMonitor.cs:992-996 | succeeds exactly when every row's version parses, with one version per row |
| ChangeTracking.VersionsPrefixFailure | src/TriggerBinding/SqlTableChangeMonitor.cs:992-996 | the first unparsable version decides the failure |
| ChangeTracking.MaxOf | src/TriggerBinding/SqlTableChangeMonitor.cs:991-1001 | a member of the versions no smaller than any of them |
| ChangeTracking.Below | src/TriggerBinding/SqlTableChangeMonitor.cs:991-1001 | exactly the versions below the bound |
| ChangeTracking.NewVersion | src/TriggerBinding/SqlTableChangeMonitor.cs:998-1007 | one of the batch's versions, only the largest lies above it, and it is below the largest when the batch has two distinct versions |
| ChangeTracking.NewVersionNumber | src/TriggerBinding/SqlTableChangeMonitor.cs:989-1008 | version parse errors propagate; an empty batch makes ElementAt(0) throw ArgumentOutOfRangeException; otherwise NewVersion of the parsed versions |
| ChangeTracking.NewVersionExamples | src/TriggerBinding/SqlTableChangeMonitor.cs:998-1007 | [9,7,9,7] advances to 7, [4,4,4] to 4, [5,3,8] to 5 |
| ChangeTracking.KeyType | src/TriggerBinding/SqlTableChangeMonitor.cs:846-866 | the declared type starts with the type name, and is the bare name exactly when the type is neither variable-length nor variable-precision |
| ChangeTracking.KeyTypeShape | src/TriggerBinding/SqlTableChangeMonitor.cs:846-866 | the type name followed by "(max)", "(length)" or "(precision,scale)" as the type's list says, else the bare name |
| ChangeTracking.KeyTypeArgumentsReadBack | src/TriggerBinding/SqlTableChangeMonitor.cs:858-865 | the declared length, and the precision and scale, read back from between the parentheses |
| ChangeTracking.KeyTypes | src/TriggerBinding/SqlTableChangeMonitor.cs:844-868 | every key column in reader order with its declared type |
| ChangeTracking.ColumnNames | src/TriggerBinding/SqlTableChangeMonitor.cs:867 | the key columns' names in reader order |
| ChangeTracking.Names | src/TriggerBinding/SqlTableChangeMonitor.cs:973 | the key names of the key list, in order |
| ChangeTracking.KeySelectItems | src/TriggerBinding/SqlTableChangeMonitor.cs:973 | "c." before every key, in order |
| ChangeTracking.NonKeyColumns | src/TriggerBinding/SqlTableChangeMonitor.cs:977 | exactly the user-table columns that are not keys; empty exactly when every column is a key |
| ChangeTracking.UserSelectItems | src/TriggerBinding/SqlTableChangeMonitor.cs:979 | "u." before every non-key column, in order |
| ChangeTracking.JoinThenSeparator | src/TriggerBinding/SqlTableChangeMonitor.cs:979 | a non-empty join with a trailing separator is every item followed by the separator |
| ChangeTracking.UserColumnsSelectList | src/TriggerBinding/SqlTableChangeMonitor.cs:978-979 | every "u." item followed by ", ", and empty exactly when every column is a key |
| ChangeTracking.ChangeSelectPrefix | src/TriggerBinding/SqlTableChangeMonitor.cs:599-600 | the key items, the user-column items and c.SYS_CHANGE_VERSION joined by ", " |
| ChangeTracking.SelectPrefixAsJoin | src/TriggerBinding/SqlTableChangeMonitor.cs:599-600 | the spliced fragments equal that join, so no select item is empty |
| ChangeTracking.SelectItemsNonEmpty | src/TriggerBinding/SqlTableChangeMonitor.cs:600 | no item of the select list is empty |
| ChangeTracking.WhereClauses | src/TriggerBinding/SqlTableChangeMonitor.cs:631 | "k = @k_index" for every key, in order |
| ChangeTracking.WhereChecks | src/TriggerBinding/SqlTableChangeMonitor.cs:626-634 | one where-check per row, the index-th for row index |
| ChangeTracking.WhereCheckMentionsEveryKey | src/TriggerBinding/SqlTableChangeMonitor.cs:631 | each key's equality with its row-numbered parameter is part of that row's where-check |
| ChangeMonitors.DeterminePrimaryKeyTypes | src/TriggerBinding/SqlTableChangeMonitor.cs:838-875 | succeeds exactly for a non-empty list of distinct key names, with every key and its declared type; a repeated name is an ArgumentException from Add and no key an InvalidOperationException |
| ChangeMonitors.ChangeMonitor.constructor | src/TriggerBinding/SqlTableChangeMonitor.cs:971-980 | the monitor once its schema is read (lines 366-382): checking for changes with no batch, holding the key list and the select list and join fragments that InitializeQueryStrings builds from it |
| ChangeMonitors.ChangeMonitor.BuildAcquireLeasesCommand | src/TriggerBinding/SqlTableChangeMonitor.cs:622-655 | appends the where-check of every row, in row order, and changes nothing else |
| ChangeMonitors.ChangeMonitor.CheckForChanges | src/TriggerBinding/SqlTableChangeMonitor.cs:392-441 | any exception clears the batch and its where-checks; a non-empty leased batch is held with one where-check per row and the monitor moves to processing |
| ChangeMonitors.ChangeMonitor.RenewLeasesTick | src/TriggerBinding/SqlTableChangeMonitor.cs:170-186 | while processing the count goes up on every tick, and the executor is cancelled exactly on the tick where it reaches 5 unless the loop's token is cancelled |
| ChangeMonitors.ChangeMonitor.ClearRows | src/TriggerBinding/SqlTableChangeMonitor.cs:470-486 | back to checking for changes with no batch, no where-checks and a zero count |
| ChangeMonitors.ChangeMonitor.GetSqlChangeTrackingEntries | src/TriggerBinding/SqlTableChangeMonitor.cs:884-908 | the loop computes Entries of the batch |
| ChangeMonitors.ChangeMonitor.CalculateNewVersionNumber | src/TriggerBinding/SqlTableChangeMonitor.cs:989-1008 | the loop computes NewVersionNumber of the batch |
| ChangeMonitors.ChangeMonitor.PrepareEntries | src/TriggerBinding/SqlTableChangeMonitor.cs:233-246 | a failure to build the entries clears the batch; otherwise nothing changes |
| ChangeMonitors.ChangeMonitor.ReleaseLeases | src/TriggerBinding/SqlTableChangeMonitor.cs:488-531 | a failing version computation propagates and keeps the batch; otherwise the batch is cleared |
| ChangeMonitors.ChangeMonitor.FinishExecution | src/TriggerBinding/SqlTableChangeMonitor.cs:250-260 | a successful function releases the leases, a failed one clears the batch |
| ChangeMonitors.StuckExecutionCancelledOnFifthTick | src/TriggerBinding/SqlTableChangeMonitor.cs:170-186 | of six ticks during one stuck execution only the fifth cancels the executor |
| ChangeMonitors.ExampleEntries | src/TriggerBinding/SqlTableChangeMonitor.cs:884-908 | an insert and a delete both make entries |
| ChangeMonitors.ExampleVersionTexts | src/TriggerBinding/SqlTableChangeMonitor.cs:994-995 | their version columns read back as 7 and 3 |
| ChangeMonitors.ExampleVersion | src/TriggerBinding/SqlTableChangeMonitor.cs:998-1002 | versions 7 and 3 advance the global state to 3 |
| ChangeMonitors.PollingRoundExample | src/TriggerBinding/SqlTableChangeMonitor.cs:219-265 | a full round over those two changes yields two entries, version 3 and an idle monitor |
| TableWatchers.ConstructorArguments | src/SqlBinding/TriggerBinding/SqlTableWatchers.cs:237-250 | the checks in order: a null or empty table name, then connection string, is an ArgumentException with its message; a missing executor or logger an ArgumentNullException; no error exactly when all are present |
| TableWatchers.MakeScaleRecommendation | src/SqlBinding/TriggerBinding/SqlTableWatchers.cs:87-113 | pending changes add a worker and keep the workers alive, "First worker" when there are none; no change removes a worker if there is one; a negative count is an exception |
| TableWatchers.RecommendationOfQuery | src/SqlBinding/TriggerBinding/SqlTableWatchers.cs:121-153 | a recommendation is made exactly when the count query read a non-negative count; no row read always ends in the exception |
| TableWatchers.PendingReasonReadsBack | src/SqlBinding/TriggerBinding/SqlTableWatchers.cs:100 | the reason for pending changes reads back as the count it reports |
| TableWatchers.WorkerTableName | src/SqlBinding/TriggerBinding/SqlTableWatchers.cs:947 | "[az_func].[Worker_Table_" then the OBJECT_ID then "]" |
| TableWatchers.WorkerTableNameReadsBack | src/SqlBinding/TriggerBinding/SqlTableWatchers.cs:947 | the OBJECT_ID reads back from the worker table's name |
| TableWatchers.UserTableId | src/SqlBinding/TriggerBinding/SqlTableWatchers.cs:1159-1181 | the id when a non-null one was read; no row and NULL are both InvalidOperationExceptions |
| TableWatchers.FirstRepeat | src/SqlBinding/TriggerBinding/SqlTableWatchers.cs:1218 | how far Dictionary.Add gets: the longest prefix without a repeated name, ending before the first name already seen |
| TableWatchers.NoEarlierRepeat | src/SqlBinding/TriggerBinding/SqlTableWatchers.cs:1218 | a name inside a repeat-free prefix does not occur before itself |
| TableWatchers.FirstRepeatUnique | src/SqlBinding/TriggerBinding/SqlTableWatchers.cs:1218 | the prefix FirstRepeat measures is the only one with its two properties |
| TableWatchers.FreshCheckFragments | src/SqlBinding/TriggerBinding/SqlTableWatchers.cs:629-651 | the user-column list is empty exactly when every column is a key; the key list is the "c." items joined by ", " |
| TableWatchers.FreshSelectPrefixWellFormed | src/SqlBinding/TriggerBinding/SqlTableWatchers.cs:637-651 | the assembled select list is the ", "-join of non-empty items, also when every column is a key |
| TableWatchers.TableChangeMonitor.constructor | src/SqlBinding/TriggerBinding/SqlTableWatchers.cs:237-262 | after the argument checks, a monitor checking for changes with no schema, no batch and an empty cache |
| TableWatchers.TableChangeMonitor.DeterminePrimaryKeyTypes | src/SqlBinding/TriggerBinding/SqlTableWatchers.cs:1193-1220 | the cleared dictionary gets every key with its declared type up to the first repeated name, which is an ArgumentException; a table without keys is accepted |
| TableWatchers.TableChangeMonitor.Start | src/SqlBinding/TriggerBinding/SqlTableWatchers.cs:932-981 | the keys, then the column names, then the OBJECT_ID, then the three creation commands, the first failure propagated; the worker table is set, named after the id, exactly when all of them succeeded, and a failure leaves it as it was |
| TableWatchers.ChangeTrackingOffMessage | src/SqlBinding/TriggerBinding/SqlTableWatchers.cs:965-966 | the message names the user table and the database |
| TableWatchers.CreationError | src/SqlBinding/TriggerBinding/SqlTableWatchers.cs:950-975 | the global state table, its row, then the worker table, in order; a failed row insert becomes an InvalidOperationException naming table and database, and the other two exceptions pass unchanged; no exception exactly when all three succeed |
| TableWatchers.ChangeTrackingOffFailsStart | src/SqlBinding/TriggerBinding/SqlTableWatchers.cs:955-970 | with change tracking off, Start throws an InvalidOperationException naming the table, and no worker table is set |
| TableWatchers.TableChangeMonitor.BuildCheckForChangesCommand | src/SqlBinding/TriggerBinding/SqlTableWatchers.cs:622-662 | the fragments are computed from the schema on first use and read back unchanged afterwards |
| TableWatchers.TableChangeMonitor.ClearRows | src/SqlBinding/TriggerBinding/SqlTableWatchers.cs:528-540 | back to checking for changes with no batch and a zero count |
| TableWatchers.TableChangeMonitor.ReleaseLeases | src/SqlBinding/TriggerBinding/SqlTableWatchers.cs:546-593 | a failing version computation propagates and keeps the batch; otherwise the finally block clears it, whatever the release did |
| TableWatchers.SingleKeySchema | src/SqlBinding/TriggerBinding/SqlTableWatchers.cs:629-651 | a table whose only column is its key selects "c.Id" and no user column |
| TableWatchers.CachedFragmentsExample | src/SqlBinding/TriggerBinding/SqlTableWatchers.cs:622-662 | two change queries read the same cached fragments |
| TableWatcher.SplitOnce | src/SqlBinding/TriggerBinding/SqlTableWatcher.cs:572 | one piece, the whole text, exactly when the separator is absent; otherwise the text before its first occurrence and the rest |
| TableWatcher.SplitOnceAt | src/SqlBinding/TriggerBinding/SqlTableWatcher.cs:572 | the separator splits where it first occurs |
| TableWatcher.Unbracketed | src/SqlBinding/TriggerBinding/SqlTableWatcher.cs:587-590 | one enclosing pair of square brackets removed, a name without them kept |
| TableWatcher.BuildWorkerTableName | src/SqlBinding/TriggerBinding/SqlTableWatcher.cs:570-593 | always starts with "az_func.Worker_Table_"; a name without '.' keeps its unbracketed self |
| TableWatcher.WorkerTableOfQualifiedName | src/SqlBinding/TriggerBinding/SqlTableWatcher.cs:572-584 | a schema-qualified name keeps only the table part without its brackets |
| TableWatcher.QualifiedWorkerTableExample | src/SqlBinding/TriggerBinding/SqlTableWatcher.cs:570-593 | "[dbo].[Products]" gives the worker table prefix "az_func.Worker_Table_" followed by "Products" |
| TableWatcher.BracketedExample | src/SqlBinding/TriggerBinding/SqlTableWatcher.cs:587-590 | "[Products]" unbrackets to "Products" |
| TableWatcher.UnqualifiedWorkerTableExample | src/SqlBinding/TriggerBinding/SqlTableWatcher.cs:570-593 | "[Products]" gives the worker table prefix followed by "Products" |
| TableWatcher.DotInsideSchemaKeptInName | src/SqlBinding/TriggerBinding/SqlTableWatcher.cs:572 | only the first '.' separates: "[a.b].[t]" gives the worker table "b].[t]", brackets kept |
| TableWatcher.KeyEqualsParameter | src/SqlBinding/TriggerBinding/SqlTableWatcher.cs:481 | "k = @k" for every key, in order |
| Common.Prefixed | src/SqlBinding/TriggerBinding/SqlTableWatcher.cs:482 | the prefix (here "@", making each key its parameter name) before every name, in order |
| TableWatcher.LeaseWhereCheckMentionsEveryKey | src/SqlBinding/TriggerBinding/SqlTableWatcher.cs:479-484 | the cached where-check compares every key with its parameter, and the value list names every parameter |
| TableWatcher.FreshCheckFragments | src/SqlBinding/TriggerBinding/SqlTableWatcher.cs:418-437 | the user-column list is the "u." items joined by ", ", with no trailing separator |
| TableWatcher.SelectPrefixWithUserColumns | src/SqlBinding/TriggerBinding/SqlTableWatcher.cs:429-451 | while some column is not a key the assembled select list is the well-formed one |
| ChangeTracking.JoinThree | src/SqlBinding/TriggerBinding/SqlTableWatcher.cs:451 | joining three non-empty runs is joining each and putting the separator between |
| TableWatcher.AllKeyColumnsLeaveEmptySelectItem | src/SqlBinding/TriggerBinding/SqlTableWatcher.cs:429-451 | when every column is a key the select list has an empty item between two commas |
| TableWatcher.AllKeyColumnsExample | src/SqlBinding/TriggerBinding/SqlTableWatcher.cs:429-451 | a table whose only column "Id" is its key selects "c.Id, , c.SYS_CHANGE_VERSION" |
| TableWatcher.TableWatcher.constructor | src/SqlBinding/TriggerBinding/SqlTableWatcher.cs:64-89 | after the argument checks, a watcher of the table with its worker table name, no schema, no batch and empty caches |
| TableWatcher.TableWatcher.GetUserTableSchema | src/SqlBinding/TriggerBinding/SqlTableWatcher.cs:237-281 | the keys are added up to the first repeated name, which is an ArgumentException that reads no column; otherwise the column names are appended |
| TableWatcher.TableWatcher.BuildCheckForChangesCommand | src/SqlBinding/TriggerBinding/SqlTableWatcher.cs:412-444 | computed from the schema on first use and read back unchanged afterwards |
| TableWatcher.TableWatcher.BuildAcquireLeaseOnRowCommand | src/SqlBinding/TriggerBinding/SqlTableWatcher.cs:472-489 | the where-check and value list cached on first use and read back afterwards |
| TableWatcher.TableWatcher.CheckForChanges | src/SqlBinding/TriggerBinding/SqlTableWatcher.cs:283-313 | the rows read are appended to the batch already held; a lease command is built for every row; read and lease errors are thrown unchanged |
| TableWatcher.TableWatcher.ReleaseLeases | src/SqlBinding/TriggerBinding/SqlTableWatcher.cs:339-383 | the batch is cleared only if every release and the commit succeeded; the state is always CheckingForChanges |
| TableWatcher.TableWatcher.PollingRound | src/SqlBinding/TriggerBinding/SqlTableWatcher.cs:169-210 | an exception from the check or the entries ends polling; a failed function or release keeps the batch to be extended by the next pass; success clears it |
| TableWatcher.TableWatcher.RenewLeasesTick | src/SqlBinding/TriggerBinding/SqlTableWatcher.cs:125-139 | the held rows are renewed only while processing changes |
| TableWatcher.FirstRepeatOf | src/SqlBinding/TriggerBinding/SqlTableWatcher.cs:261 | how far Add gets through the key list |
| TableWatcher.HeldBatchNeverRenewed | src/SqlBinding/TriggerBinding/SqlTableWatcher.cs:125-199 | a batch whose function failed stays held and is never renewed |
| TableWatchers.PerformanceMonitorArguments | src/SqlBinding/TriggerBinding/SqlTableWatchers.cs:50-65 | a null or empty table name, then a null or empty connection string, is an ArgumentException; only then is a missing logger an ArgumentNullException; otherwise nothing is thrown |
| ChangeTrackingConverter.ConstructorArguments | src/SqlBinding/TriggerBinding/SqlChangeTrackingConverter.cs:38-47 | an empty table name is an ArgumentException; a null setting or configuration an ArgumentNullException; an empty setting name passes |
| ChangeTrackingConverter.ChangeTypeOf | src/SqlBinding/TriggerBinding/SqlChangeTrackingConverter.cs:93-113 | succeeds exactly on the codes "I", "U" and "D", returning the change whose code it is; a missing column is a NullReferenceException, any other code an InvalidDataException |
| ChangeTrackingConverter.ChangeTypeAgreesWhenPresent | src/SqlBinding/TriggerBinding/SqlChangeTrackingConverter.cs:93-113 | with the operation column present it agrees with the later revisions' decoder; only the missing column's exception differs |
| ChangeTrackingConverter.DefaultDictionary | src/SqlBinding/TriggerBinding/SqlChangeTrackingConverter.cs:179-189 | exactly the primary keys, each with the change row's value or null |
| ChangeTrackingConverter.Present | src/SqlBinding/TriggerBinding/SqlChangeTrackingConverter.cs:163 | the dictionary read back, every value present |
| ChangeTrackingConverter.EntriesFrom | src/SqlBinding/TriggerBinding/SqlChangeTrackingConverter.cs:67-80 | one entry per row in order, each with the row's change type, and a success means every row's connection and query succeeded; a row not read back carries its primary-key-only dictionary; a connection that cannot be built fails a non-empty batch with its exception, after the first row's change type; when every query succeeds without a row the list succeeds exactly when the connection does (or there is no row) and every code decodes |
| ChangeTrackingConverter.EntriesFromStep | src/SqlBinding/TriggerBinding/SqlChangeTrackingConverter.cs:74-79 | the change type, then the data, of each row; the first exception ends the list |
| ChangeTrackingConverter.SqlChangeTrackingConverter.constructor | src/SqlBinding/TriggerBinding/SqlChangeTrackingConverter.cs:38-47 | the converter keeps its table, setting and configuration |
| ChangeTrackingConverter.SqlChangeTrackingConverter.GetRowData | src/SqlBinding/TriggerBinding/SqlChangeTrackingConverter.cs:140-166 | BuildConnection's exception (an InvalidOperationException for an empty setting name), then the query's, propagates; otherwise the primary-key-only dictionary, replaced by the user-table row when one is read back; the shared column list is filled from the first row read |
| ChangeTrackingConverter.SqlChangeTrackingConverter.Connection | src/SqlBinding/TriggerBinding/SqlChangeTrackingConverter.cs:149 | the connection each row builds fails exactly when the setting name is empty, with an InvalidOperationException, and otherwise holds the configured connection string |
| ChangeTrackingConverter.SqlChangeTrackingConverter.BuildSqlChangeTrackingEntries | src/SqlBinding/TriggerBinding/SqlChangeTrackingConverter.cs:67-80 | the loop, with a column list that starts empty and the converter's own connection for every row, computes EntriesFrom, connection and query failures included |
| ChangeTrackingConverter.EmptySettingFailsFirstRow | src/SqlBinding/TriggerBinding/SqlChangeTrackingConverter.cs:38-47 | an empty setting name passes the constructor, and then one inserted row with nothing read back fails with InvalidOperationException |
| Collectors.NonNull | src/SqlBinding/SqlCollectors.cs:53-60 | the items added when null ones are skipped, never more than were given |
| Collectors.NonNullMembers | src/SqlBinding/SqlCollectors.cs:53-60 | an item is buffered exactly when it was added and is not null |
| Collectors.NonNullFixes | src/SqlBinding/SqlCollectors.cs:55 | skipping nulls changes nothing exactly when no null was added |
| Collectors.NonNullAppend | src/SqlBinding/SqlCollectors.cs:53-60 | skipping nulls over two runs of additions is skipping them in each |
| Collectors.Written | src/SqlBinding/SqlCollectors.cs:113-115 | the rows an insert writes are a prefix of its batch: all of it when it completes, otherwise as many as were committed before it threw |
| Collectors.FlattenSnoc | src/SqlBinding/SqlCollectors.cs:70-80 | a flushed batch lands after every batch flushed before it |
| BindingCollectors.ConstructorArguments | src/SqlBinding/SqlCollectors.cs:30-40 | no exception exactly when both connection and attribute are given; otherwise an ArgumentNullException |
| BindingCollectors.AdapterSelect | src/SqlBinding/SqlCollectors.cs:102 | the adapter's query names the table unbracketed and ends with ";" |
| BindingCollectors.WrapInsertFailure | src/SqlBinding/SqlCollectors.cs:118-122 | a failed insert becomes an InvalidOperationException whose message is the fixed prefix then the original message, with no inner exception |
| BindingCollectors.SqlAsyncCollector.constructor | src/SqlBinding/SqlCollectors.cs:30-41 | an empty buffer for the attribute's table |
| BindingCollectors.SqlAsyncCollector.AddAsync | src/SqlBinding/SqlCollectors.cs:53-60 | a null item is ignored, any other appended; nothing is lost |
| BindingCollectors.SqlAsyncCollector.FlushAsync | src/SqlBinding/SqlCollectors.cs:70-123 | an empty buffer does nothing; otherwise the insert is recorded with the rows it wrote, all of them or, when it throws, the ones committed before; a completed insert clears the buffer, a failed one raises the wrapped exception and keeps the whole buffer, rows already written included; the batches flushed, then the buffer, are everything added |
| BindingCollectors.RetryWritesAcceptedRowsAgain | src/SqlBinding/SqlCollectors.cs:113-115 | a flush that fails after writing the first of two rows, then a flush that completes, writes the first row twice |
| BindingAsyncCollector.ConstructorArguments | src/SqlBinding/SqlAsyncCollector.cs:33-37 | no exception exactly when both connection and attribute are given; otherwise an ArgumentNullException |
| BindingAsyncCollector.AdapterSelect | src/SqlBinding/SqlAsyncCollector.cs:92 | the adapter's query names the table in brackets and ends with ";" |
| BindingAsyncCollector.SqlAsyncCollector.constructor | src/SqlBinding/SqlAsyncCollector.cs:33-37 | an empty buffer for the attribute's table |
| BindingAsyncCollector.SqlAsyncCollector.AddAsync | src/SqlBinding/SqlAsyncCollector.cs:48-55 | a null item is ignored, any other appended |
| BindingAsyncCollector.SqlAsyncCollector.FlushAsync | src/SqlBinding/SqlAsyncCollector.cs:65-110 | an empty buffer does nothing; otherwise the insert is started and the buffer cleared, the call completing normally either way; the table receives the whole batch when the insert completes and only the rows committed before it threw otherwise |
| BindingAsyncCollector.FailedInsertGoesUnreported | src/SqlBinding/SqlAsyncCollector.cs:65-86 | an item added and flushed while the insert fails before writing a row is neither buffered nor written, and no exception reaches the caller |
| ExtensionCollectors.SQLAsyncCollector.constructor | src/SQLExtension/SQLCollectors.cs:20-25 | an empty buffer for the attribute's table, with no argument checks |
| ExtensionCollectors.SQLAsyncCollector.AddAsync | src/SQLExtension/SQLCollectors.cs:27-31 | every item is appended, null ones too |
| ExtensionCollectors.SQLAsyncCollector.FlushAsync | src/SQLExtension/SQLCollectors.cs:33-75 | an empty buffer does nothing; otherwise the insert is recorded with the rows it wrote; a completed insert clears the buffer, a failed one lets its exception propagate unwrapped and keeps the whole buffer, rows already written included |
| ExtensionCollectors.SQLCollector.constructor | src/SQLExtension/SQLCollectors.cs:52-56 | a collector that has inserted nothing |
| ExtensionCollectors.SQLCollector.Add | src/SQLExtension/SQLCollectors.cs:58-75 | the item is inserted at once as a one-element batch: written when the insert completes, not written when it fails first, whose exception then propagates unwrapped |
| ExtensionCollectors.FlushKeepsNulls | src/SQLExtension/SQLCollectors.cs:27-31 | the flushed batch is everything added, which is longer than the later revisions' null-free buffer exactly when a null was added |
| Upsert.GetCaseSensitivityFromCollation | src/SqlAsyncCollector.cs:335-338 | case-sensitive exactly when "_CS_" occurs at some position of the collation's name |
| Upsert.CaseSensitiveCollation | src/SqlAsyncCollector.cs:335-338 | a collation named with "_CS_" is case-sensitive |
| Upsert.NoMarkerWithoutS | src/SqlAsyncCollector.cs:335-338 | a collation name without an upper-case S is never case-sensitive |
| Upsert.CaseInsensitiveCollation | src/SqlAsyncCollector.cs:335-338 | a "_CI_" collation is case-insensitive |
| Upsert.CaseSensitivity | src/SqlAsyncCollector.cs:450-472 | case-sensitive only when the collation query returned rows and its last row names a case-sensitive collation; a failed query means case-insensitive |
| Upsert.NameKeyStable | src/SqlAsyncCollector.cs:474-517 | a stored name is its own comparer key |
| Upsert.StoredColumns | src/SqlAsyncCollector.cs:478-491 | one column per row read, its name lower-cased unless case-sensitive, its definition as read |
| Upsert.StoredKeys | src/SqlAsyncCollector.cs:508-522 | one primary key per row read, its name lower-cased unless case-sensitive, its identity flag as read |
| Upsert.KeyMembers | src/SqlAsyncCollector.cs:540 | exactly the POCO members whose name some primary key has under the comparer |
| Upsert.MissingKeys | src/SqlAsyncCollector.cs:541-543 | exactly the primary keys that no key member matches |
| Upsert.MissingKeysHaveNoMember | src/SqlAsyncCollector.cs:540-543 | a key is missing exactly when no POCO member at all carries its name |
| Upsert.InsertText | src/SqlAsyncCollector.cs:392-396 | the insert query is INSERT INTO the bracketed full name, selecting everything from the cte |
| Upsert.WrittenProperties | src/SqlAsyncCollector.cs:411-414 | exactly the POCO properties that are not identity primary keys, in property order |
| Upsert.MissingKeysMessageHidesNames | src/SqlAsyncCollector.cs:549 | two lists of missing keys of the same length give the same message whatever the keys are called |
| Upsert.MissingKeysMessage | src/SqlAsyncCollector.cs:549 | the message names the table and the POCO type, shows the PrimaryKey type name when a key is missing, and ends with the closing ']' |
| Upsert.NamedMissingKeysMessage | src/SqlAsyncCollector.cs:549 | the corrected message contains the name of every missing key |
| Upsert.RetrieveTableInformation | src/SqlAsyncCollector.cs:444-571 | every failure is an InvalidOperationException; a success needs both metadata queries to succeed and holds the comparer's case and the stored columns, non-empty and with distinct names |
| Upsert.ColumnInformation | src/SqlAsyncCollector.cs:474-505 | every failure is an InvalidOperationException, a failed column query carried as its inner exception; a success holds the stored columns, non-empty with distinct names, and the case given |
| Upsert.KeyInformation | src/SqlAsyncCollector.cs:507-570 | every failure is an InvalidOperationException, a failed key query carried as its inner exception; a success has at least one key, an identity key or no key missing from the POCO, the key members, the columns and the case given, and the insert query exactly when an identity key is missing |
| Upsert.TableInformationErrors | src/SqlAsyncCollector.cs:474-536 | a failed column query, duplicate column names, no column, a failed key query and no key each give their own InvalidOperationException, in that order |
| Upsert.TableInformationOnSuccess | src/SqlAsyncCollector.cs:538-570 | a success holds the stored, distinct columns, the key members and the comparer's case; the query is the insert exactly when an identity key is missing from the POCO, and the merge otherwise |
| Upsert.KeysWithoutIdentityMustBeMembers | src/SqlAsyncCollector.cs:538-553 | without an identity key the lookup succeeds exactly when every primary key is a POCO member; otherwise it fails with the missing-keys message |
| Upsert.TrimTerminated | src/SqlAsyncCollector.cs:415-420 | trimming the trailing commas of the builder leaves the comma-joined assignments |
| Upsert.BuildOnClause | src/SqlAsyncCollector.cs:403-409 | the ON clause builder yields every key's match joined by " AND " |
| Upsert.BuildUpdateSet | src/SqlAsyncCollector.cs:415-420 | the UPDATE SET builder yields every written column's assignment joined by "," |
| Upsert.GetMergeQuery | src/SqlAsyncCollector.cs:401-432 | the merge query's ON, UPDATE SET and INSERT parts are those of the key list and the written properties |
| Upsert.MergeMatchesKeysAndSkipsIdentity | src/SqlAsyncCollector.cs:401-432 | the ON clause compares every primary key, and UPDATE SET and INSERT cover exactly the properties that are not identity keys |
| MergeData.CombinePrimaryKey | src/SqlAsyncCollector.cs:260-273 | the StringBuilder loop yields the texts of the non-null key values run together in key order |
| MergeData.KeptFrom | src/SqlAsyncCollector.cs:257-281 | the positions the reversed scan keeps all lie in the scanned range |
| MergeData.KeptAreLast | src/SqlAsyncCollector.cs:257-281 | every kept position holds the last row with its key |
| MergeData.KeptDescending | src/SqlAsyncCollector.cs:257 | kept positions come in decreasing order, the scan running from the last row |
| MergeData.KeptCover | src/SqlAsyncCollector.cs:276-280 | every key of the scanned range is the key of a kept position |
| MergeData.KeptKeysDistinct | src/SqlAsyncCollector.cs:252-276 | the kept positions have pairwise different keys |
| MergeData.KeptStartsWithLast | src/SqlAsyncCollector.cs:257 | the reversed scan keeps the last position first |
| MergeData.RowsToUpsert | src/SqlAsyncCollector.cs:250-281 | only rows of the batch are sent, nothing for an empty batch, and the batch's last row first |
| MergeData.UpsertKeysDistinct | src/SqlAsyncCollector.cs:250-281 | the rows sent have pairwise different combined keys under the table's comparer |
| MergeData.UpsertCoversEveryKey | src/SqlAsyncCollector.cs:250-281 | every key of the batch is the key of a row sent |
| MergeData.UpsertKeepsLastRow | src/SqlAsyncCollector.cs:255-281 | each row sent is the batch's last row with its key, and the rows go out in reverse batch order |
| MergeData.CompositeKeysCollide | src/SqlAsyncCollector.cs:264-276 | the rows with keys (1, "23") and (12, "3") combine to the same key, so only the second is sent |
| MergeData.KeyTuple | src/SqlAsyncCollector.cs:264-273 | the corrected key: one folded value per primary key, null kept as null |
| MergeData.SameValuesSameCombinedKey | src/SqlAsyncCollector.cs:264-273 | rows whose key values agree under the comparer get the same combined key |
| MergeData.KeyTupleRefinesCombinedKey | src/SqlAsyncCollector.cs:264-276 | rows with equal key tuples are rows the code as written also treats as duplicates |
| MergeData.RowsToUpsertByKeyTuple | src/SqlAsyncCollector.cs:250-281 | under the corrected comparison too, only rows of the batch are sent, nothing for an empty batch, and the batch's last row first |
| MergeData.DistinctTuplesAllSent | src/SqlAsyncCollector.cs:255-281 | under the corrected comparison, a batch whose key tuples are pairwise different is sent whole |
| MergeData.ByKeyTupleKeepsLastRow | src/SqlAsyncCollector.cs:255-281 | under the corrected comparison, the rows sent have pairwise different key tuples and cover every tuple of the batch |
| MergeData.CompositeKeysKeptApart | src/SqlAsyncCollector.cs:264-276 | under the corrected comparison, both rows of the colliding example are sent |
| MergeData.PocoColumns | src/SqlAsyncCollector.cs:284-285 | exactly the table's columns that some POCO property names under the comparer, in column order |
| MergeData.ColumnDefinitions | src/SqlAsyncCollector.cs:285-286 | each column as its bracket-quoted name, a space and its definition |
| MergeData.DataQuery | src/SqlAsyncCollector.cs:283-287 | the data query declares every table column that a POCO property names, as its bracket-quoted name and definition |
| MergeData.GenerateDataQueryForMerge | src/SqlAsyncCollector.cs:250-287 | the reversed scan with its HashSet sends the last row per combined key, and the data query reads the JSON with the POCO's columns |
| MergeData.FindProperty | src/SqlAsyncCollector.cs:589-597 | a property is found exactly when the comparer equates one with the name, and it is such a property |
| MergeData.CreateProperties | src/SqlAsyncCollector.cs:586-605 | two properties the comparer equates are an ArgumentException from ToDictionary, and only they are; otherwise the resolved names of the table's columns |
| MergeData.CreatedPropertiesMatchDataQuery | src/SqlAsyncCollector.cs:586-605 | with the column names stored as the comparer keeps them, a resolver that does not throw serializes exactly the data query's column names, in its order |
| MergeData.SerializedFollowColumns | src/SqlAsyncCollector.cs:586-605 | the serialized property names are the data query's column names, in the same order |
| MergeData.ExtraProperties | src/SqlAsyncCollector.cs:236-241 | exactly the POCO properties that are not columns of the table under its comparer |
| SqlAsyncCollectors.ConstructorArguments | src/SqlAsyncCollector.cs:75-81 | no exception exactly when configuration, attribute and logger factory are all given; otherwise an ArgumentNullException |
| SqlAsyncCollectors.Batches | src/SqlAsyncCollector.cs:185-196 | non-empty batches of at most 1000 rows, every one but the last full |
| SqlAsyncCollectors.BatchesPartition | src/SqlAsyncCollector.cs:196 | the batches, one after the other, are the buffered rows |
| SqlAsyncCollectors.ExtraPropertiesMessage | src/SqlAsyncCollector.cs:176-182 | the message names every extra property |
| SqlAsyncCollectors.TransactionOutcome | src/SqlAsyncCollector.cs:210-227 | no failure, nothing thrown; a failure is rethrown, unless the rollback fails too, which throws an AggregateException holding the failure |
| SqlAsyncCollectors.ExecutedCount | src/SqlAsyncCollector.cs:196-203 | every batch's command runs, or those up to and including the one that throws |
| SqlAsyncCollectors.TryFailure | src/SqlAsyncCollector.cs:196-204 | the try block fails exactly when a command or the commit throws |
| SqlAsyncCollectors.ExecuteBatches | src/SqlAsyncCollector.cs:196-203 | the commands sent are those of the batches up to and including the one whose command throws (all of them when none does), and that batch's exception is the failure |
| SqlAsyncCollectors.UpsertRows | src/SqlAsyncCollector.cs:143-228 | a failed table lookup or an extra property sends nothing and throws; otherwise one command per batch is sent up to the failing one and the transaction's outcome is thrown; it commits exactly when nothing is thrown |
| SqlAsyncCollectors.CommittedUpsertCoversEveryRow | src/SqlAsyncCollector.cs:250-281 | each buffered row's key is carried by its batch's command |
| SqlAsyncCollectors.ExecutedAll | src/SqlAsyncCollector.cs:196-204 | a committed transaction ran every batch's command |
| SqlAsyncCollectors.SqlAsyncCollector.constructor | src/SqlAsyncCollector.cs:75-81 | an empty buffer, nothing committed |
| SqlAsyncCollectors.SqlAsyncCollector.AddAsync | src/SqlAsyncCollector.cs:91-105 | a null item is ignored, any other appended; nothing is lost |
| SqlAsyncCollectors.SqlAsyncCollector.FlushAsync | src/SqlAsyncCollector.cs:116-133 | an empty buffer does nothing; a committed upsert records the buffer and its batch commands and clears it; a thrown exception keeps the buffer; every added item is committed or buffered |

## Left out

- SQL Server itself is abstract: connections, readers, transactions, `SqlDataAdapter`, `SqlBulkCopy`, `sp_getapplock`, and what CHANGETABLE, MERGE and OPENJSON mean. Query results and the exceptions a query, an open connection or a reader throws are inputs; the change-tracking converter of the earlier trigger revision also builds each row's connection from its configuration, so an empty setting name fails there. How many rows a failing `DataAdapter.Update` committed is an input too.
- LegacyBindingUtilities.Lookup: a reader is its column names and values, and `reader[name]` is an exact match; `SqlDataReader`'s indexer, which falls back to a case-insensitive match when no column has exactly that name, is not modelled.
- Concurrency is not modelled: the SemaphoreSlim row locks, the `Task.Run` polling and renewal loops, `Task.Delay`, `Interlocked` and cancellation tokens. Each call is one sequential step, and whether a token is cancelled is a parameter.
- JSON serialization (Newtonsoft) is not modelled: a row is a map, and a serialized batch is the sequence of rows it holds. In src/SqlBinding/SqlCollectors.cs the `JsonConvert.DeserializeObject` into a DataTable runs before the try (lines 96-99), so an exception from it would escape unwrapped; the model treats that deserialization as never failing. SqlAsyncCollectors.UpsertRows: the ArgumentException of `ToDictionary` in the contract resolver (src/SqlAsyncCollector.cs:590), which SerializeObject (line 283) raises when two POCO properties collide under the comparer, is modelled there only as a failing batch's exception, an input (`Database.executeError`); MergeData.CreateProperties states when it happens.
- Reflection is an input: the POCO's member names, property names and type name. SqlAsyncCollectors.UpsertRows: the InvalidCastException that `foreach (PropertyInfo primaryKey in table.PrimaryKeys)` (src/SqlAsyncCollector.cs:264) throws when a key member is a public field rather than a property is not tied to the POCO; it too is only a failing batch's exception (`Database.executeError`).
- The TSql150Parser behind `SqlObject` is an input: its parse errors or the parsed (schema, name) pair.
- `MemoryCache` is left out: the upsert collector's table information is a parameter, whether it was read now or cached.
- `SqlCredential` and `SecureString` internals are left out: a credential is its user id and password text. The constructor's null check is modelled for the user name (ExtensionBinding.LaxCredentialFor); its 128-character limits on user name and password are not.
- Upsert.CaseSensitivity: the collation query's outcome is either its rows or an exception. The source sets the verdict inside the read loop (src/SqlAsyncCollector.cs:458-461), so a query that throws after reading a row keeps that row's verdict; the model's failure always means case-insensitive.
- Options.SqlOptions.Format: lines end in "\n". Newtonsoft writes the writer's NewLine, which is Environment.NewLine, "\r\n" on Windows.
- BindingAsyncCollector.FailedInsertGoesUnreported: what happens to the escaped exception after FlushAsync returns is not modelled. Leaving an `async void` method with no synchronization context, it is rethrown on the thread pool, unhandled, which by default ends the host process.
- Telemetry, logging, stopwatches and the clock are left out. A timestamp is a whole number of seconds given as input.
- `SqlBindingUtilities.NormalizeTableName` is not part of this model, and the table name is kept as given. The same holds for `ProcessTableName`, which the change-tracking converter applies to the table name before storing it (src/SqlBinding/TriggerBinding/SqlChangeTrackingConverter.cs:44).
- `SqlTriggerConstants.UserDefinedLeasesTableNameFormat` is not part of this model; its text before and after the name is a parameter of TriggerUtils.GetBracketedLeasesTableName.
- MoreLinq's `Batch` is not part of this model; SqlAsyncCollectors.Batches states its documented meaning.
- `IEnumerableExtensions` is not part of this model.
- Command texts are built with the source's fragments and separators, but the line breaks and indentation of its multi-line T-SQL templates are not reproduced.
- Upsert.GetMergeQuery: only the three generated parts are modelled (the ON condition, the SET list and the INSERT column list). The fixed MERGE template around them (src/SqlAsyncCollector.cs:422-432) is not: the target table's bracket-quoted full name, `WITH (HOLDLOCK)`, the ExistingData and NewData aliases, and the VALUES list, which repeats the INSERT list.
- `ToLowerInvariant` and the ordinal ignore-case comparers are modelled for ASCII letters only.
- `long.Parse` of SYS_CHANGE_VERSION accepts an optionally signed digit string in the 64-bit range. Surrounding white space, which .NET also accepts, is not modelled. Otherwise `long` values are unbounded integers. The only integer wrap-around modelled is the scale monitor's `int` product (Scaling.Wrap32).
- SqlAsyncCollectors.TransactionOutcome: the AggregateException of a failed rollback holds both exceptions in the code, and the model keeps only the first, the upsert's, as its inner exception.
- ExtensionConverters.BuildConnection, ExtensionBinding.BuildItemFromAttribute: a connection wrapper is its connection string and credential; opening it and `SetCredential`'s own checks are not modelled.
- The host wiring is left out: the config providers, the binding and trigger providers, `SqlTriggerBinding`, the scaler provider's service lookups beyond its precedence rule, the metrics provider's query, tests, samples and the Java annotations.

## Findings

| source | as written | input that shows it | evidently intended | confidence | as-written member | corrected member |
|---|---|---|---|---|---|---|
| src/SqlBinding/TriggerBinding/SqlTableWatcher.cs:429-451 | the user column list has no trailing separator, and the select list puts ", " on both sides of it | a table whose every column is a primary key: the select list reads "c.k, , c.SYS_CHANGE_VERSION" | no empty select item, as in the later revision, whose list ends in ", " | not executed | TableWatcher.AllKeyColumnsLeaveEmptySelectItem | TableWatchers.FreshSelectPrefixWellFormed |
| src/SqlBinding/TriggerBinding/SqlTableWatcher.cs:160-205 | the polling loop never sets ProcessingChanges, and lease renewal acts only in that state | one changed row whose function fails: the batch stays held, and no tick ever renews its lease | a held batch is in ProcessingChanges and its leases are renewed, the stuck execution cancelled on the fifth tick, as in the current monitor | not executed | TableWatcher.HeldBatchNeverRenewed | ChangeMonitors.StuckExecutionCancelledOnFifthTick |
| src/SqlBinding/SqlAsyncCollector.cs:72-86 | InsertRows is `async void`, and FlushAsync clears the buffer without waiting for it | one item added, then flushed while the insert throws: FlushAsync completes, the buffer is empty, and the table never gets the row; the exception, with no synchronization context to return to, is rethrown on the thread pool as unhandled, which by default ends the host process | a failed insert raises an exception to the caller and keeps the buffer, as the collector in src/SqlBinding/SqlCollectors.cs does | not executed | BindingAsyncCollector.FailedInsertGoesUnreported | BindingCollectors.SqlAsyncCollector.FlushAsync |
| src/SqlAsyncCollector.cs:264-276 | the combined primary key runs the key values together with no separator | keys (Id, Code) and rows (1, "23") and (12, "3"): both combine to "123", and the first row is dropped | rows are duplicates only when every key value is equal | not executed | MergeData.CompositeKeysCollide | MergeData.RowsToUpsertByKeyTuple |
| src/SqlAsyncCollector.cs:549 | the missing keys are interpolated as PrimaryKey objects, which have no ToString override (lines 27-38) | a POCO lacking the key "Id": the message lists "Microsoft.Azure.WebJobs.Extensions.Sql.PrimaryKey" instead of "Id" | the message lists the names of the missing keys | not executed | Upsert.MissingKeysMessageHidesNames | Upsert.NamedMissingKeysMessage |
