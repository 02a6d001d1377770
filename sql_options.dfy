/**
 * SqlOptions: the extension's options with their defaults and validating
 * setters. A rejected value throws and leaves the option as it was, so
 * the three bounds always hold.
 */
module Options {
  import opened Common

  const DefaultMaxBatchSize := 100
  const DefaultPollingIntervalMs := 1000
  const DefaultMinimumPollingIntervalMs := 100
  const DefaultMaxChangesPerWorker := 1000

  class SqlOptions {
    var maxBatchSize: int
    var pollingIntervalMs: int
    const minPollingInterval: int
    var maxChangesPerWorker: int

    /** The bounds every accepted value respects. */
    ghost predicate Valid()
      reads this
    {
      maxBatchSize >= 1 && minPollingInterval == DefaultMinimumPollingIntervalMs &&
      pollingIntervalMs >= minPollingInterval && maxChangesPerWorker >= 1
    }

    constructor ()
      ensures Valid()
      ensures maxBatchSize == 100 && pollingIntervalMs == 1000 && maxChangesPerWorker == 1000
    {
      maxBatchSize := DefaultMaxBatchSize;
      pollingIntervalMs := DefaultPollingIntervalMs;
      minPollingInterval := DefaultMinimumPollingIntervalMs;
      maxChangesPerWorker := DefaultMaxChangesPerWorker;
    }

    /** The MaxBatchSize setter: values below 1 are an ArgumentOutOfRangeException. */
    method SetMaxBatchSize(value: int) returns (error: Option<Exception>)
      requires Valid()
      modifies this
      ensures Valid()
      ensures value <= 0 ==>
        error == Some(ThrowWith(ArgumentOutOfRangeException, "MaxBatchSize must not be less than 1.")) &&
        maxBatchSize == old(maxBatchSize)
      ensures value > 0 ==> error == None && maxBatchSize == value
      ensures pollingIntervalMs == old(pollingIntervalMs) && maxChangesPerWorker == old(maxChangesPerWorker)
    {
      if value <= 0 {
        return Some(ThrowWith(ArgumentOutOfRangeException, "MaxBatchSize must not be less than 1."));
      }
      maxBatchSize := value;
      error := None;
    }

    /** The PollingIntervalMs setter: values below the 100 ms minimum are an ArgumentException. */
    method SetPollingIntervalMs(value: int) returns (error: Option<Exception>)
      requires Valid()
      modifies this
      ensures Valid()
      ensures value < 100 ==>
        error == Some(ThrowWith(ArgumentException, PollingIntervalMessage(minPollingInterval))) &&
        pollingIntervalMs == old(pollingIntervalMs)
      ensures value >= 100 ==> error == None && pollingIntervalMs == value
      ensures maxBatchSize == old(maxBatchSize) && maxChangesPerWorker == old(maxChangesPerWorker)
    {
      if value < minPollingInterval {
        return Some(ThrowWith(ArgumentException, PollingIntervalMessage(minPollingInterval)));
      }
      pollingIntervalMs := value;
      error := None;
    }

    /** The MaxChangesPerWorker setter: values below 1 are an ArgumentException. */
    method SetMaxChangesPerWorker(value: int) returns (error: Option<Exception>)
      requires Valid()
      modifies this
      ensures Valid()
      ensures value < 1 ==>
        error == Some(ThrowWith(ArgumentException, "MaxChangesPerWorker must not be less than 1.")) &&
        maxChangesPerWorker == old(maxChangesPerWorker)
      ensures value >= 1 ==> error == None && maxChangesPerWorker == value
      ensures maxBatchSize == old(maxBatchSize) && pollingIntervalMs == old(pollingIntervalMs)
    {
      if value < 1 {
        return Some(ThrowWith(ArgumentException, "MaxChangesPerWorker must not be less than 1."));
      }
      maxChangesPerWorker := value;
      error := None;
    }

    /** Clone: a new options object holding the same three values. */
    method Clone() returns (copy: SqlOptions)
      requires Valid()
      ensures fresh(copy) && copy.Valid()
      ensures copy.maxBatchSize == maxBatchSize && copy.pollingIntervalMs == pollingIntervalMs &&
              copy.maxChangesPerWorker == maxChangesPerWorker
    {
      copy := new SqlOptions();
      copy.maxBatchSize := maxBatchSize;
      copy.pollingIntervalMs := pollingIntervalMs;
      copy.maxChangesPerWorker := maxChangesPerWorker;
    }

    /** Format: the JSON object of the three options, in this order. */
    function FormatEntries(): (entries: seq<(string, int)>)
      reads this
      ensures |entries| == 3
      ensures forall i, j :: 0 <= i < j < 3 ==> entries[i].0 != entries[j].0
      ensures (set e | e in entries :: e.0) == {"MaxBatchSize", "PollingIntervalMs", "MaxChangesPerWorker"}
      ensures forall e :: e in entries ==>
        e.1 == (if e.0 == "MaxBatchSize" then maxBatchSize
                else if e.0 == "PollingIntervalMs" then pollingIntervalMs
                else maxChangesPerWorker)
    {
      var entries := [("MaxBatchSize", maxBatchSize), ("PollingIntervalMs", pollingIntervalMs),
                      ("MaxChangesPerWorker", maxChangesPerWorker)];
      assert entries[0] in entries && entries[1] in entries && entries[2] in entries;
      entries
    }

    /**
     * The indented text Format returns (two-space indentation, as JObject.ToString(Indented) writes it):
     * the three members, one per line, in the order MaxBatchSize, PollingIntervalMs, MaxChangesPerWorker,
     * then the closing brace.
     */
    function Format(): (text: string)
      reads this
      ensures text == "{\n" + (JsonMember("MaxBatchSize", maxBatchSize) + ",\n" +
                               JsonMember("PollingIntervalMs", pollingIntervalMs) + ",\n" +
                               JsonMember("MaxChangesPerWorker", maxChangesPerWorker)) + "\n}"
    {
      var entries := FormatEntries();
      assert entries == [("MaxBatchSize", maxBatchSize), ("PollingIntervalMs", pollingIntervalMs),
                         ("MaxChangesPerWorker", maxChangesPerWorker)];
      ThreeMembers(entries);
      JsonObject(entries)
    }

    /** Format's text opens with the brace and the MaxBatchSize member. */
    lemma FormatOpensWithMaxBatchSize()
      ensures StartsWith(Format(), "{\n  \"MaxBatchSize\": ")
    {
      OpenedByFirstName("{\n", "  \"", "MaxBatchSize", "\": ", IntToString(maxBatchSize), ",\n",
                        JsonMember("PollingIntervalMs", pollingIntervalMs),
                        JsonMember("MaxChangesPerWorker", maxChangesPerWorker), "\n}");
      assert Format() == "{\n" + (JsonMember("MaxBatchSize", maxBatchSize) + ",\n" +
                                   JsonMember("PollingIntervalMs", pollingIntervalMs) + ",\n" +
                                   JsonMember("MaxChangesPerWorker", maxChangesPerWorker)) + "\n}";
      MaxBatchSizeOpening();
    }
  }

  function PollingIntervalMessage(minimum: int): string
  {
    "PollingInterval must not be less than " + IntToString(minimum) + "Ms."
  }

  /** An indented JSON object of integer members. */
  function JsonObject(entries: seq<(string, int)>): string
  {
    "{\n" + JsonMembers(entries) + "\n}"
  }

  /** An object of three members starts with its brace and the first member's name. */
  lemma OpenedByFirstName(open: string, quote: string, name: string, colon: string, value: string,
                          comma: string, second: string, third: string, close: string)
    ensures StartsWith(open + (quote + name + colon + value + comma + second + comma + third) + close,
                       open + (quote + name + colon))
  {
    var head := quote + name + colon;
    var rest := value + comma + second + comma + third;
    assert quote + name + colon + value + comma + second + comma + third == head + rest;
    assert open + (head + rest) + close == open + head + (rest + close);
  }

  /** The opening brace and the first member's name, spelled out. */
  lemma MaxBatchSizeOpening()
    ensures "{\n" + ("  \"" + "MaxBatchSize" + "\": ") == "{\n  \"MaxBatchSize\": "
  {
  }

  /** Three members are written as three lines separated by commas. */
  lemma ThreeMembers(entries: seq<(string, int)>)
    requires |entries| == 3
    ensures JsonMembers(entries) ==
      JsonMember(entries[0].0, entries[0].1) + ",\n" + JsonMember(entries[1].0, entries[1].1) + ",\n" +
      JsonMember(entries[2].0, entries[2].1)
  {
    var rest := entries[1..];
    assert rest[1..] == [entries[2]];
    assert JsonMembers(rest) == JsonMember(entries[1].0, entries[1].1) + ",\n" + JsonMember(entries[2].0, entries[2].1);
    var a, b := JsonMember(entries[0].0, entries[0].1) + ",\n", JsonMember(entries[1].0, entries[1].1) + ",\n";
    var c := JsonMember(entries[2].0, entries[2].1);
    assert a + (b + c) == a + b + c;
  }

  /** One indented member line, `  "name": value`. */
  function JsonMember(name: string, value: int): string
  {
    "  \"" + name + "\": " + IntToString(value)
  }

  function JsonMembers(entries: seq<(string, int)>): string
  {
    if |entries| == 0 then ""
    else
      var member := JsonMember(entries[0].0, entries[0].1);
      if |entries| == 1 then member else member + ",\n" + JsonMembers(entries[1..])
  }
}
