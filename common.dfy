/**
 * Values shared by every part of the model: optional values (C# null),
 * results that are either a value or a thrown exception, the exceptions
 * the binding throws, and the small string operations of the .NET base
 * library that the binding relies on (Split, Join, Replace, StartsWith,
 * Contains, ToLowerInvariant, integer formatting).
 */
module Common {

  datatype Option<T> = None | Some(value: T)

  /** The .NET exception types the binding throws or inspects. */
  datatype ExceptionKind =
    | ArgumentException
    | ArgumentNullException
    | ArgumentOutOfRangeException
    | InvalidOperationException
    | InvalidDataException
    | FormatException
    | OverflowException
    | NullReferenceException
    | IndexOutOfRangeException
    | AggregateException
    | GeneralException
    | SqlException(number: int, severity: int)

  /** An exception object: its type, its Message and its InnerException. */
  datatype Exception = Exception(kind: ExceptionKind, message: string, inner: Option<Exception>)

  /** An exception of the given type whose message the model does not track. */
  function Throw(kind: ExceptionKind): Exception
  {
    Exception(kind, "", None)
  }

  /** An exception of the given type with the given message. */
  function ThrowWith(kind: ExceptionKind, message: string): Exception
  {
    Exception(kind, message, None)
  }

  /** Either the value a call returns or the exception it throws. */
  datatype Result<T> = Success(value: T) | Failure(error: Exception)
  {
    predicate IsFailure() { Failure? }

    function PropagateFailure<U>(): Result<U>
      requires Failure?
    {
      Failure(error)
    }

    function Extract(): T
      requires Success?
    {
      value
    }
  }

  // ---------------------------------------------------------------------
  // Joining and splitting

  /** Every name with the same prefix before it, as in names.Select(n => prefix + n). */
  function Prefixed(prefix: string, names: seq<string>): (r: seq<string>)
    ensures |r| == |names| && forall i :: 0 <= i < |names| ==> r[i] == prefix + names[i]
  {
    seq(|names|, i requires 0 <= i < |names| => prefix + names[i])
  }

  /** string.Join(sep, parts). */
  function Join(sep: string, parts: seq<string>): string
  {
    if |parts| == 0 then ""
    else if |parts| == 1 then parts[0]
    else parts[0] + sep + Join(sep, parts[1..])
  }

  /** Joining two non-empty lists is joining each and putting the separator between. */
  lemma {:induction false} JoinAppend(sep: string, a: seq<string>, b: seq<string>)
    requires |a| > 0 && |b| > 0
    ensures Join(sep, a + b) == Join(sep, a) + sep + Join(sep, b)
    decreases |a|
  {
    var ab := a + b;
    assert |ab| > 1 && ab[0] == a[0];
    if |a| == 1 {
      assert ab[1..] == b;
      calc {
        Join(sep, ab);
        a[0] + sep + Join(sep, b);
      }
    } else {
      assert ab[1..] == a[1..] + b;
      JoinAppend(sep, a[1..], b);
      calc {
        Join(sep, ab);
        a[0] + sep + Join(sep, a[1..] + b);
        a[0] + sep + (Join(sep, a[1..]) + sep + Join(sep, b));
        (a[0] + sep + Join(sep, a[1..])) + sep + Join(sep, b);
      }
    }
  }

  /** Every part of a join occurs in the joined text. */
  lemma {:induction false} JoinContainsParts(sep: string, parts: seq<string>)
    ensures forall i :: 0 <= i < |parts| ==> Contains(Join(sep, parts), parts[i])
    decreases |parts|
  {
    if |parts| > 1 {
      JoinContainsParts(sep, parts[1..]);
      var rest := Join(sep, parts[1..]);
      var text := Join(sep, parts);
      var offset := |parts[0] + sep|;
      assert text == (parts[0] + sep) + rest;
      forall i | 0 <= i < |parts| ensures Contains(text, parts[i]) {
        if i == 0 {
          assert parts[0] <= text;
        } else {
          assert parts[i] == parts[1..][i - 1];
          ContainsAt(rest, parts[i]);
          var k :| OccursAt(rest, parts[i], k);
          assert text[offset + k..offset + k + |parts[i]|] == rest[k..k + |parts[i]|];
          assert OccursAt(text, parts[i], offset + k);
          ContainsAt(text, parts[i]);
        }
      }
    } else if |parts| == 1 {
      assert parts[0] <= Join(sep, parts);
    }
  }

  /** A join ends with the last part's last character. */
  lemma {:induction false} JoinLastChar(sep: string, parts: seq<string>)
    requires |parts| > 0 && |parts[|parts| - 1]| > 0
    ensures var j := Join(sep, parts); var last := parts[|parts| - 1];
      |j| > 0 && j[|j| - 1] == last[|last| - 1]
    decreases |parts|
  {
    if |parts| > 1 {
      JoinLastChar(sep, parts[1..]);
    }
  }

  /** s.TrimEnd(c): s without the run of c at its end. */
  function TrimEnd(s: string, c: char): (r: string)
    ensures r <= s && (|r| == 0 || r[|r| - 1] != c)
    ensures forall i :: |r| <= i < |s| ==> s[i] == c
    decreases |s|
  {
    if |s| > 0 && s[|s| - 1] == c then TrimEnd(s[..|s| - 1], c) else s
  }

  /** No element occurs twice (the keys of a .NET Dictionary, the columns of a table). */
  predicate Distinct<T(==)>(s: seq<T>)
  {
    forall i, j :: 0 <= i < j < |s| ==> s[i] != s[j]
  }

  /** A non-empty sequence is its front and its last element: membership and repeats split accordingly. */
  lemma SplitLast<T>(s: seq<T>)
    requires |s| > 0
    ensures s == s[..|s| - 1] + [s[|s| - 1]]
    ensures forall x :: x in s <==> x in s[..|s| - 1] || x == s[|s| - 1]
    ensures Distinct(s) <==> Distinct(s[..|s| - 1]) && s[|s| - 1] !in s[..|s| - 1]
  {
    var init, last := s[..|s| - 1], s[|s| - 1];
    assert s == init + [last];
    if Distinct(init) && last !in init {
      forall i, j | 0 <= i < j < |s|
        ensures s[i] != s[j]
      {
        if j == |s| - 1 {
          assert s[i] == init[i];
        } else {
          assert s[i] == init[i] && s[j] == init[j];
        }
      }
    }
    if Distinct(s) {
      forall i, j | 0 <= i < j < |init|
        ensures init[i] != init[j]
      {
        assert init[i] == s[i] && init[j] == s[j];
      }
      forall i | 0 <= i < |init|
        ensures init[i] != last
      {
        assert init[i] == s[i];
      }
    }
  }

  /** Appending a new element keeps a sequence free of repeats. */
  lemma DistinctSnoc<T>(s: seq<T>, x: T)
    requires Distinct(s) && x !in s
    ensures Distinct(s + [x])
  {
  }

  /** string.Split(c): the pieces between occurrences of c, empty pieces kept. */
  function Split(s: string, c: char): (parts: seq<string>)
    ensures |parts| >= 1
    decreases |s|
  {
    if |s| == 0 then [""]
    else
      var rest := Split(s[1..], c);
      if s[0] == c then [""] + rest
      else [[s[0]] + rest[0]] + rest[1..]
  }

  /** Keeps the non-empty strings of a sequence, in order. */
  function NonEmpty(parts: seq<string>): (r: seq<string>)
    ensures forall i :: 0 <= i < |r| ==> r[i] != ""
    ensures |r| <= |parts|
  {
    if |parts| == 0 then []
    else if parts[0] == "" then NonEmpty(parts[1..])
    else [parts[0]] + NonEmpty(parts[1..])
  }

  /** string.Split(new[] { c }, StringSplitOptions.RemoveEmptyEntries). */
  function SplitRemoveEmpty(s: string, c: char): seq<string>
  {
    NonEmpty(Split(s, c))
  }

  lemma {:induction false} SplitPiecesFree(s: string, c: char)
    ensures forall i :: 0 <= i < |Split(s, c)| ==> c !in Split(s, c)[i]
    decreases |s|
  {
    if |s| > 0 {
      SplitPiecesFree(s[1..], c);
    }
  }

  /** Split is undone by Join with the same separator. */
  lemma {:induction false} JoinSplit(s: string, c: char)
    ensures Join([c], Split(s, c)) == s
    decreases |s|
  {
    if |s| > 0 {
      JoinSplit(s[1..], c);
      var rest := Split(s[1..], c);
      if s[0] == c {
        assert Split(s, c) == [""] + rest;
        if |rest| == 1 {
          assert Join([c], Split(s, c)) == "" + [c] + rest[0];
        } else {
          assert Split(s, c)[1..] == rest;
        }
      } else {
        var parts := Split(s, c);
        assert parts == [[s[0]] + rest[0]] + rest[1..];
        if |rest| == 1 {
          assert parts == [[s[0]] + rest[0]];
        } else {
          assert parts[1..] == rest[1..];
          assert Join([c], rest) == rest[0] + [c] + Join([c], rest[1..]);
        }
      }
    }
  }

  /** Joining pieces that do not contain the separator and splitting again gives them back. */
  lemma {:induction false} SplitJoin(parts: seq<string>, c: char)
    requires |parts| >= 1
    requires forall i :: 0 <= i < |parts| ==> c !in parts[i]
    ensures Split(Join([c], parts), c) == parts
    decreases |parts|, |parts[0]|
  {
    if |parts| == 1 {
      SplitOfFree(parts[0], c);
    } else if |parts[0]| == 0 {
      var tail := Join([c], parts[1..]);
      assert Join([c], parts) == [c] + tail;
      SplitJoin(parts[1..], c);
      assert ([c] + tail)[1..] == tail;
    } else {
      var head := parts[0];
      var shorter := [head[1..]] + parts[1..];
      forall i | 0 <= i < |shorter| ensures c !in shorter[i] {
        if i > 0 { assert shorter[i] == parts[i]; }
      }
      SplitJoin(shorter, c);
      assert shorter[1..] == parts[1..];
      var joined := Join([c], parts);
      assert joined == head + [c] + Join([c], parts[1..]);
      assert Join([c], shorter) == head[1..] + [c] + Join([c], parts[1..]);
      assert joined[1..] == Join([c], shorter);
      assert joined[0] == head[0];
      assert [head[0]] + head[1..] == head;
    }
  }

  lemma {:induction false} SplitOfFree(s: string, c: char)
    requires c !in s
    ensures Split(s, c) == [s]
    decreases |s|
  {
    if |s| > 0 {
      SplitOfFree(s[1..], c);
      assert [s[0]] + s[1..] == s;
    }
  }

  // ---------------------------------------------------------------------
  // Prefixes, substrings and replacement

  /** s.StartsWith(p) with ordinal comparison. */
  predicate StartsWith(s: string, p: string)
  {
    p <= s
  }

  /** s.Contains(sub) with ordinal comparison. */
  predicate Contains(s: string, sub: string)
    decreases |s|
  {
    sub <= s || (|s| > 0 && Contains(s[1..], sub))
  }

  /** sub occurs in s starting at position k. */
  predicate OccursAt(s: string, sub: string, k: int)
  {
    0 <= k && k + |sub| <= |s| && s[k..k + |sub|] == sub
  }

  /** Contains holds exactly when sub occurs at some position of s. */
  lemma {:induction false} ContainsAt(s: string, sub: string)
    ensures Contains(s, sub) <==> exists k :: OccursAt(s, sub, k)
    decreases |s|
  {
    if |s| > 0 {
      ContainsAt(s[1..], sub);
      if sub <= s {
        assert OccursAt(s, sub, 0);
      } else if Contains(s[1..], sub) {
        var k :| OccursAt(s[1..], sub, k);
        assert s[k + 1..k + 1 + |sub|] == s[1..][k..k + |sub|];
        assert OccursAt(s, sub, k + 1);
      }
      if exists k :: OccursAt(s, sub, k) {
        var k :| OccursAt(s, sub, k);
        if k == 0 {
          assert sub <= s;
        } else {
          assert s[1..][k - 1..k - 1 + |sub|] == s[k..k + |sub|];
          assert OccursAt(s[1..], sub, k - 1);
        }
      }
    } else {
      if sub == [] {
        assert OccursAt(s, sub, 0);
      }
      if exists k :: OccursAt(s, sub, k) {
        var k :| OccursAt(s, sub, k);
        assert sub == [];
      }
    }
  }

  /** A string contains its suffix. */
  lemma SubstringOccurs(whole: string, before: string, part: string)
    requires whole == before + part
    ensures Contains(whole, part)
  {
    ContainsAt(whole, part);
    assert OccursAt(whole, part, |before|);
  }

  /** Containment is transitive. */
  lemma ContainsTransitive(s: string, mid: string, sub: string)
    requires Contains(s, mid) && Contains(mid, sub)
    ensures Contains(s, sub)
  {
    ContainsAt(s, mid);
    ContainsAt(mid, sub);
    var k :| OccursAt(s, mid, k);
    var m :| OccursAt(mid, sub, m);
    forall i | 0 <= i < |sub| ensures s[k + m + i] == sub[i] {
      assert s[k + m + i] == mid[m + i];
    }
    assert s[k + m..k + m + |sub|] == sub;
    assert OccursAt(s, sub, k + m);
    ContainsAt(s, sub);
  }

  /** A string contains any of its middle parts. */
  lemma ContainsMiddle(before: string, mid: string, after: string)
    ensures Contains(before + mid + after, mid)
  {
    var whole := before + mid + after;
    assert whole[|before|..|before| + |mid|] == mid;
    assert OccursAt(whole, mid, |before|);
    ContainsAt(whole, mid);
  }

  /**
   * s.Replace(from, to): every occurrence of a non-empty `from`, scanning left
   * to right without overlaps, is replaced by `to`.
   */
  function Replace(s: string, from: string, to: string): string
    requires |from| > 0
    decreases |s|
  {
    if |s| == 0 then ""
    else if from <= s then to + Replace(s[|from|..], from, to)
    else [s[0]] + Replace(s[1..], from, to)
  }

  /** Collapses every doubled `c` back to one `c`: the inverse of doubling. */
  function Undouble(s: string, c: char): string
    decreases |s|
  {
    if |s| >= 2 && s[0] == c && s[1] == c then [c] + Undouble(s[2..], c)
    else if |s| == 0 then ""
    else [s[0]] + Undouble(s[1..], c)
  }

  /** Doubling a character with Replace is undone by Undouble. */
  lemma {:induction false} UndoubleReplace(s: string, c: char)
    ensures Undouble(Replace(s, [c], [c, c]), c) == s
    decreases |s|
  {
    if |s| > 0 {
      UndoubleReplace(s[1..], c);
      var rest := Replace(s[1..], [c], [c, c]);
      if s[0] == c {
        assert [c] <= s;
        assert Replace(s, [c], [c, c]) == [c, c] + rest;
        assert ([c, c] + rest)[2..] == rest;
      } else {
        assert Replace(s, [c], [c, c]) == [s[0]] + rest;
        assert ([s[0]] + rest)[1..] == rest;
      }
      assert [s[0]] + s[1..] == s;
    }
  }

  /** After doubling, every `c` sits in a pair: no `c` stands alone. */
  predicate AllDoubled(s: string, c: char)
    decreases |s|
  {
    if |s| == 0 then true
    else if s[0] == c then |s| >= 2 && s[1] == c && AllDoubled(s[2..], c)
    else AllDoubled(s[1..], c)
  }

  lemma {:induction false} ReplaceDoubles(s: string, c: char)
    ensures AllDoubled(Replace(s, [c], [c, c]), c)
    ensures |Replace(s, [c], [c, c])| >= |s|
    decreases |s|
  {
    if |s| > 0 {
      ReplaceDoubles(s[1..], c);
      var rest := Replace(s[1..], [c], [c, c]);
      if s[0] == c {
        assert [c] <= s;
        assert ([c, c] + rest)[2..] == rest;
      } else {
        assert ([s[0]] + rest)[1..] == rest;
      }
    }
  }

  /** A string without `from` is left unchanged by Replace. */
  lemma {:induction false} ReplaceAbsent(s: string, from: string, to: string)
    requires |from| > 0
    requires !Contains(s, from)
    ensures Replace(s, from, to) == s
    decreases |s|
  {
    if |s| > 0 {
      ReplaceAbsent(s[1..], from, to);
      assert [s[0]] + s[1..] == s;
    }
  }

  // ---------------------------------------------------------------------
  // Letter case (ASCII letters; the invariant culture agrees on these)

  function ToLowerChar(ch: char): char
  {
    if 'A' <= ch <= 'Z' then (ch as int - 'A' as int + 'a' as int) as char else ch
  }

  /** ToLowerInvariant on the ASCII range. */
  function ToLower(s: string): (r: string)
    ensures |r| == |s|
    ensures forall i :: 0 <= i < |s| ==> r[i] == ToLowerChar(s[i])
  {
    seq(|s|, i requires 0 <= i < |s| => ToLowerChar(s[i]))
  }

  /** Ordinal case-insensitive equality. */
  predicate EqualsIgnoreCase(a: string, b: string)
  {
    ToLower(a) == ToLower(b)
  }

  lemma ToLowerIdempotent(s: string)
    ensures ToLower(ToLower(s)) == ToLower(s)
  {
  }

  // ---------------------------------------------------------------------
  // Integer formatting (int.ToString() in the invariant culture)

  function DigitChar(d: int): char
    requires 0 <= d < 10
  {
    ('0' as int + d) as char
  }

  function NatToString(n: nat): (r: string)
    ensures |r| >= 1
    ensures forall i :: 0 <= i < |r| ==> '0' <= r[i] <= '9'
  {
    if n < 10 then [DigitChar(n)] else NatToString(n / 10) + [DigitChar(n % 10)]
  }

  function IntToString(n: int): string
  {
    if n < 0 then "-" + NatToString(-n) else NatToString(n)
  }

  /** Reads back a string of decimal digits. */
  function ParseDigits(s: string): int
    decreases |s|
  {
    if |s| == 0 then 0 else ParseDigits(s[..|s| - 1]) * 10 + (s[|s| - 1] as int - '0' as int)
  }

  /** Decimal formatting is undone by reading the digits back. */
  lemma {:induction false} ParseNatToString(n: nat)
    ensures ParseDigits(NatToString(n)) == n
  {
    if n >= 10 {
      ParseNatToString(n / 10);
      var s := NatToString(n / 10) + [DigitChar(n % 10)];
      assert s[..|s| - 1] == NatToString(n / 10);
    }
  }
}
