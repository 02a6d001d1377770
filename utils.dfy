/**
 * Boolean settings: environment variables and configuration values read
 * as "true"/"1"/"yes" or "false"/"0"/"no" in any letter case, with a
 * default for anything else. The environment and the configuration are
 * given as maps.
 */
module Utils {
  import opened Common

  const TrueWords: seq<string> := ["true", "1", "yes"]
  const FalseWords: seq<string> := ["false", "0", "no"]

  /** AsBool: a switch on the lower-cased string. */
  function AsBool(s: string, defaultValue: bool): (b: bool)
    ensures ToLower(s) in TrueWords ==> b
    ensures ToLower(s) in FalseWords ==> !b
    ensures ToLower(s) !in TrueWords && ToLower(s) !in FalseWords ==> b == defaultValue
  {
    var lower := ToLower(s);
    if lower == "true" || lower == "1" || lower == "yes" then true
    else if lower == "false" || lower == "0" || lower == "no" then false
    else defaultValue
  }

  /** Strings that differ only in letter case read the same. */
  lemma AsBoolIgnoresCase(s: string, t: string, defaultValue: bool)
    requires EqualsIgnoreCase(s, t)
    ensures AsBool(s, defaultValue) == AsBool(t, defaultValue)
  {
  }

  /** The default matters exactly for the strings that are not one of the six words. */
  lemma DefaultMattersOnlyForOtherStrings(s: string)
    ensures AsBool(s, true) != AsBool(s, false) <==> (ToLower(s) !in TrueWords && ToLower(s) !in FalseWords)
  {
  }

  /** bool.ToString(). */
  function BoolToString(b: bool): string
  {
    if b then "True" else "False"
  }

  /** GetEnvironmentVariableAsBool: an unset or empty variable gives the default. */
  function GetEnvironmentVariableAsBool(environment: map<string, string>, name: string, defaultValue: bool): (b: bool)
    ensures (name !in environment || environment[name] == "") ==> b == defaultValue
    ensures name in environment && environment[name] != "" ==> b == AsBool(environment[name], defaultValue)
  {
    if name !in environment || environment[name] == "" then defaultValue
    else AsBool(environment[name], defaultValue)
  }

  /**
   * GetConfigSettingAsBool: a missing setting reads as the default's own
   * text, "True" or "False", which AsBool maps back to the default.
   */
  function GetConfigSettingAsBool(configuration: map<string, string>, name: string, defaultValue: bool): (b: bool)
    ensures name !in configuration ==> b == defaultValue
    ensures name in configuration ==> b == AsBool(configuration[name], defaultValue)
  {
    DefaultTextReadsBack(defaultValue);
    AsBool(if name in configuration then configuration[name] else BoolToString(defaultValue), defaultValue)
  }

  lemma DefaultTextReadsBack(b: bool)
    ensures AsBool(BoolToString(b), !b) == b
    ensures AsBool(BoolToString(b), b) == b
  {
    if b {
      assert ToLower("True") == "true";
    } else {
      assert ToLower("False") == "false";
    }
  }

  /** The unit-test examples: recognised words in several cases, and two unrecognised strings. */
  lemma AsBoolExamples()
    ensures AsBool("TRUE", false) && AsBool("Yes", false) && AsBool("1", false)
    ensures !AsBool("FALSE", true) && !AsBool("No", true) && !AsBool("0", true)
    ensures !AsBool("2", false) && AsBool("2", true)
  {
    assert ToLower("TRUE") == "true";
    assert ToLower("Yes") == "yes";
    assert ToLower("1") == "1";
    assert ToLower("FALSE") == "false";
    assert ToLower("No") == "no";
    assert ToLower("0") == "0";
    assert ToLower("2") == "2";
  }
}
