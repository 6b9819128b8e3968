/**
 * The few JavaScript string primitives the client relies on: `trim`,
 * `startsWith`, `split` on one character, `join`, and `indexOf('\n\n')`.
 */
module Strings {
  import opened Wrappers

  /** JavaScript truthiness of an optional string: null, undefined and "" are falsy. */
  predicate Truthy(s: Option<string>) {
    s.Some? && s.value != ""
  }

  /** JavaScript's WhiteSpace and LineTerminator characters: what `trim` removes and `\s` matches. */
  predicate IsWhitespace(c: char) {
    || c == ' ' || c == '\t' || c == '\n' || c == '\r' || c == '\U{000B}' || c == '\U{000C}'
    || c == '\U{00A0}' || c == '\U{1680}' || ('\U{2000}' <= c <= '\U{200A}')
    || c == '\U{2028}' || c == '\U{2029}' || c == '\U{202F}' || c == '\U{205F}'
    || c == '\U{3000}' || c == '\U{FEFF}'
  }

  /** The characters a regular-expression `.` does not match. */
  predicate IsLineTerminator(c: char) {
    c == '\n' || c == '\r' || c == '\U{2028}' || c == '\U{2029}'
  }

  /** Every character is white space (vacuously true of ""). */
  predicate IsBlank(s: string) {
    forall i :: 0 <= i < |s| ==> IsWhitespace(s[i])
  }

  /** `s.trimStart()`: the suffix left after the leading white space. */
  function TrimStart(s: string): (r: string)
    ensures |r| <= |s| && r == s[|s| - |r|..]
    ensures r == [] || !IsWhitespace(r[0])
  {
    if s != [] && IsWhitespace(s[0]) then TrimStart(s[1..]) else s
  }

  /** `s.trimEnd()`: the prefix left before the trailing white space. */
  function TrimEnd(s: string): (r: string)
    ensures |r| <= |s| && r == s[..|r|]
    ensures r == [] || !IsWhitespace(r[|r| - 1])
  {
    if s != [] && IsWhitespace(s[|s| - 1]) then TrimEnd(s[..|s| - 1]) else s
  }

  /** `s.trim()`. */
  function Trim(s: string): (r: string)
    ensures r == [] || (!IsWhitespace(r[0]) && !IsWhitespace(r[|r| - 1]))
  {
    TrimEnd(TrimStart(s))
  }

  /** What `TrimStart` strips is white space. */
  lemma {:induction false} TrimStartStripsBlank(s: string)
    ensures IsBlank(s[..|s| - |TrimStart(s)|])
  {
    if s != [] && IsWhitespace(s[0]) {
      var t := s[1..];
      TrimStartStripsBlank(t);
      var m := |t| - |TrimStart(t)|;
      assert |s| - |TrimStart(s)| == m + 1;
      assert s[..m + 1] == [s[0]] + t[..m];
    }
  }

  /** `TrimEnd` never strips a string that starts with a visible character down to "". */
  lemma {:induction false} TrimEndKeepsVisible(t: string)
    requires t != [] && !IsWhitespace(t[0])
    ensures TrimEnd(t) != []
  {
    if IsWhitespace(t[|t| - 1]) {
      TrimEndKeepsVisible(t[..|t| - 1]);
    }
  }

  /** A string trims to "" exactly when stripping its leading white space leaves nothing. */
  lemma TrimEmpty(s: string)
    ensures Trim(s) == "" <==> TrimStart(s) == []
  {
    if TrimStart(s) != [] {
      TrimEndKeepsVisible(TrimStart(s));
    }
  }

  /** A string trims to "" exactly when it is blank. */
  lemma TrimEmptyIffBlank(s: string)
    ensures Trim(s) == "" <==> IsBlank(s)
  {
    TrimEmpty(s);
    TrimStartStripsBlank(s);
    var t := TrimStart(s);
    if t == [] {
      assert s[..|s|] == s;
    } else {
      assert s[|s| - |t|] == t[0];
      assert !IsWhitespace(s[|s| - |t|]);
    }
  }

  /** A string that starts with a visible character does not trim to "". */
  lemma TrimNotEmpty(s: string)
    requires s != [] && !IsWhitespace(s[0])
    ensures Trim(s) != ""
  {
    TrimEmpty(s);
  }

  /** A string with no white space at either end is its own trim. */
  lemma TrimOfTrimmed(s: string)
    requires s == [] || (!IsWhitespace(s[0]) && !IsWhitespace(s[|s| - 1]))
    ensures Trim(s) == s
  {
  }

  /** Trimming is idempotent. */
  lemma TrimIdempotent(s: string)
    ensures Trim(Trim(s)) == Trim(s)
  {
    TrimOfTrimmed(Trim(s));
  }

  /** `s.startsWith(p)`. */
  predicate StartsWith(s: string, p: string) {
    |p| <= |s| && s[..|p|] == p
  }

  /** `s.indexOf(c)`, with |s| standing for "not found". */
  function IndexOfChar(s: string, c: char): (i: nat)
    ensures i <= |s|
    ensures i < |s| ==> s[i] == c
    ensures c !in s[..i]
  {
    if s == [] then 0
    else if s[0] == c then 0
    else 1 + IndexOfChar(s[1..], c)
  }

  /** `s.split(sep)` for a one-character separator. */
  function Split(s: string, sep: char): (parts: seq<string>)
    ensures |parts| >= 1
    ensures forall k :: 0 <= k < |parts| ==> sep !in parts[k]
    decreases |s|
  {
    var i := IndexOfChar(s, sep);
    if i == |s| then [s] else [s[..i]] + Split(s[i + 1..], sep)
  }

  /** `parts.join(sep)`. */
  function Join(parts: seq<string>, sep: string): string {
    if parts == [] then ""
    else if |parts| == 1 then parts[0]
    else parts[0] + sep + Join(parts[1..], sep)
  }

  /** Joining a head onto a non-empty rest puts one separator between them. */
  lemma JoinCons(head: string, rest: seq<string>, sep: string)
    requires rest != []
    ensures Join([head] + rest, sep) == head + sep + Join(rest, sep)
  {
    assert ([head] + rest)[1..] == rest;
  }

  /** The chunks of a stream put together, in order. */
  function Concat(chunks: seq<string>): string {
    if chunks == [] then "" else Concat(chunks[..|chunks| - 1]) + chunks[|chunks| - 1]
  }

  lemma {:induction false} JoinAppend(parts: seq<string>, last: string, sep: string)
    requires parts != []
    ensures Join(parts + [last], sep) == Join(parts, sep) + sep + last
  {
    if |parts| == 1 {
      assert parts + [last] == [parts[0], last];
    } else {
      assert (parts + [last])[1..] == parts[1..] + [last];
      JoinAppend(parts[1..], last, sep);
    }
  }

  /** Joining the pieces of a split with the separator gives the string back. */
  lemma {:induction false} JoinSplit(s: string, sep: char)
    ensures Join(Split(s, sep), [sep]) == s
    decreases |s|
  {
    var i := IndexOfChar(s, sep);
    if i < |s| {
      JoinSplit(s[i + 1..], sep);
      assert s == s[..i] + [sep] + s[i + 1..];
    }
  }

  /** Splitting a join of separator-free pieces gives the pieces back. */
  lemma {:induction false} SplitJoin(parts: seq<string>, sep: char)
    requires parts != []
    requires forall k :: 0 <= k < |parts| ==> sep !in parts[k]
    ensures Split(Join(parts, [sep]), sep) == parts
  {
    if |parts| > 1 {
      var s := Join(parts, [sep]);
      assert s == parts[0] + [sep] + Join(parts[1..], [sep]);
      SplitFirst(parts[0], Join(parts[1..], [sep]), sep);
      SplitJoin(parts[1..], sep);
    }
  }

  /** Concatenation is associative; stated once so that proofs can name the step. */
  lemma Assoc<T>(a: seq<T>, b: seq<T>, c: seq<T>)
    ensures a + (b + c) == (a + b) + c
  {
  }

  /** Two ways of grouping five pieces of text. */
  lemma Regroup(a: string, b: string, c: string, d: string, e: string)
    ensures a + b + c + d + e == a + (b + c + d + e)
    ensures a + b + c + d + e == a + b + (c + d + e)
  {
  }

  /** Two adjacent slices make up the slice that spans both. */
  lemma AdjacentSlices<T>(s: seq<T>, i: nat, j: nat, k: nat)
    requires i <= j <= k <= |s|
    ensures s[i..j] + s[j..k] == s[i..k]
  {
  }

  /** Splitting `a + sep + b`, where `a` holds no separator, cuts exactly after `a`. */
  lemma SplitFirst(a: string, b: string, sep: char)
    requires sep !in a
    ensures Split(a + [sep] + b, sep) == [a] + Split(b, sep)
  {
    var s := a + [sep] + b;
    assert forall k :: 0 <= k < |a| ==> s[k] == a[k];
    assert s[|a|] == sep;
    assert s[..|a|] == a && s[|a| + 1..] == b;
  }

  /** Whether `s` has "\n\n" starting at index `i`. */
  predicate DoubleNewlineAt(s: string, i: int) {
    0 <= i && i + 1 < |s| && s[i] == '\n' && s[i + 1] == '\n'
  }

  predicate HasDoubleNewline(s: string) {
    exists i | 0 <= i < |s| :: DoubleNewlineAt(s, i)
  }

  /** The first "\n\n" at or after `k`, or -1. */
  function IndexOfDoubleNewlineFrom(s: string, k: nat): (r: int)
    requires k <= |s|
    ensures r == -1 || (k <= r < |s| && DoubleNewlineAt(s, r))
    ensures forall i :: k <= i && (r == -1 || i < r) ==> !DoubleNewlineAt(s, i)
    decreases |s| - k
  {
    if k + 1 >= |s| then -1
    else if s[k] == '\n' && s[k + 1] == '\n' then k
    else IndexOfDoubleNewlineFrom(s, k + 1)
  }

  /** `s.indexOf('\n\n')`: the first occurrence, or -1. */
  function IndexOfDoubleNewline(s: string): (r: int)
    ensures -1 <= r < |s|
    ensures r == -1 <==> !HasDoubleNewline(s)
    ensures r != -1 ==> DoubleNewlineAt(s, r)
    ensures forall i :: 0 <= i < r ==> !DoubleNewlineAt(s, i)
  {
    IndexOfDoubleNewlineFrom(s, 0)
  }

  predicate IsDigit(c: char) {
    '0' <= c <= '9'
  }

  function DigitChar(d: nat): char
    requires d < 10
  {
    ('0' as int + d) as char
  }

  /** The value of the decimal digits of `s`, most significant first. */
  function DigitsValue(s: string): nat {
    if s == [] then 0
    else
      var c := s[|s| - 1];
      DigitsValue(s[..|s| - 1]) * 10 + (if IsDigit(c) then c as int - '0' as int else 0)
  }

  /** `String(n)` for a non-negative integer: its decimal digits, without leading zeros. */
  function NatToString(n: nat): (s: string)
    ensures s != [] && forall i :: 0 <= i < |s| ==> IsDigit(s[i])
    ensures s[0] == '0' ==> n == 0
  {
    if n < 10 then [DigitChar(n)] else NatToString(n / 10) + [DigitChar(n % 10)]
  }

  /** Reading the digits back gives the number. */
  lemma {:induction false} NatToStringRoundTrip(n: nat)
    ensures DigitsValue(NatToString(n)) == n
  {
    if n >= 10 {
      NatToStringRoundTrip(n / 10);
      var s := NatToString(n);
      assert s[..|s| - 1] == NatToString(n / 10);
    }
  }
}
