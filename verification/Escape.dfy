/** Percent-encoding of index values (section 2.1 of RFC 3986) and the '/'-joined index strings
    built from them.  Strings are sequences of bytes: every character is below 256. */
module Escape {

  const SEPARATOR: char := '/'

  ghost predicate IsBytes(s: string) {
    forall i :: 0 <= i < |s| ==> s[i] as int < 256
  }

  /** Characters urllib.quote never escapes when `safe` is empty. */
  predicate IsUnreserved(c: char) {
    'a' <= c <= 'z' || 'A' <= c <= 'Z' || '0' <= c <= '9' || c == '_' || c == '.' || c == '-'
  }

  function HexDigit(n: int): char
    requires 0 <= n < 16
  {
    if n < 10 then '0' + n as char else 'A' + (n - 10) as char
  }

  predicate IsHex(c: char) {
    '0' <= c <= '9' || 'A' <= c <= 'F' || 'a' <= c <= 'f'
  }

  function HexValue(c: char): (n: int)
    requires IsHex(c)
    ensures 0 <= n < 16
  {
    if c <= '9' then (c - '0') as int
    else if c <= 'F' then (c - 'A') as int + 10
    else (c - 'a') as int + 10
  }

  function QuoteChar(c: char): string {
    if IsUnreserved(c) || c as int >= 256 then [c] else ['%', HexDigit(c as int / 16), HexDigit(c as int % 16)]
  }

  function Quote(s: string): string {
    if s == "" then "" else QuoteChar(s[0]) + Quote(s[1..])
  }

  /** A '%' that is not followed by two hexadecimal digits stays as it is. */
  function Unquote(s: string): string {
    if s == "" then ""
    else if s[0] == '%' && |s| >= 3 && IsHex(s[1]) && IsHex(s[2]) then
      [(16 * HexValue(s[1]) + HexValue(s[2])) as char] + Unquote(s[3..])
    else [s[0]] + Unquote(s[1..])
  }

  /** The segments of `s` between separators; splitting "" gives one empty segment. */
  function Split(s: string): (segments: seq<string>)
    ensures |segments| > 0
  {
    if s == "" then [""]
    else
      var rest := Split(s[1..]);
      if s[0] == SEPARATOR then [""] + rest else [[s[0]] + rest[0]] + rest[1..]
  }

  function Join(segments: seq<string>): string {
    if |segments| == 0 then ""
    else if |segments| == 1 then segments[0]
    else segments[0] + [SEPARATOR] + Join(segments[1..])
  }

  function NonEmpty(segments: seq<string>): seq<string> {
    if segments == [] then []
    else (if segments[0] == "" then [] else [segments[0]]) + NonEmpty(segments[1..])
  }

  function UnquoteAll(segments: seq<string>): seq<string> {
    if segments == [] then [] else [Unquote(segments[0])] + UnquoteAll(segments[1..])
  }

  function QuoteAll(values: seq<string>): seq<string> {
    if values == [] then [] else [Quote(values[0])] + QuoteAll(values[1..])
  }

  function UnquoteSplit(s: string): seq<string> {
    UnquoteAll(NonEmpty(Split(s)))
  }

  function IndexString(values: seq<string>): string {
    Join(QuoteAll(values))
  }

  // ---------- what is escaped ----------

  const UPPER: string := "ABCDEFGHIJKLMNOPQRSTUVWXYZ"
  const LOWER: string := "abcdefghijklmnopqrstuvwxyz"
  const DIGITS: string := "0123456789"

  /** A byte stands for itself if it is one of these characters; any other is escaped by two upper-case
      hexadecimal digits. */
  lemma QuotedExactly(c: char)
    requires c as int < 256
    ensures QuoteChar(c) == if c in UPPER || c in LOWER || c in DIGITS || c == '_' || c == '.' || c == '-' then [c]
                            else ['%', "0123456789ABCDEF"[c as int / 16], "0123456789ABCDEF"[c as int % 16]]
  {
    IsUpper(c);
    IsLower(c);
    IsDigit(c);
    HexExactly(c as int / 16);
    HexExactly(c as int % 16);
  }

  lemma HexExactly(n: nat)
    requires n < 16
    ensures HexDigit(n) == "0123456789ABCDEF"[n]
  {
  }

  lemma IsUpper(c: char)
    ensures c in UPPER <==> 'A' <= c <= 'Z'
  {
    if 'A' <= c <= 'Z' {
      assert UPPER[(c - 'A') as int] == c;
    }
  }

  lemma IsLower(c: char)
    ensures c in LOWER <==> 'a' <= c <= 'z'
  {
    if 'a' <= c <= 'z' {
      assert LOWER[(c - 'a') as int] == c;
    }
  }

  lemma IsDigit(c: char)
    ensures c in DIGITS <==> '0' <= c <= '9'
  {
    if '0' <= c <= '9' {
      assert DIGITS[(c - '0') as int] == c;
    }
  }

  /** Hexadecimal digits of both cases are read. */
  lemma ReadsHexDigits(c: char)
    ensures IsHex(c) <==> c in DIGITS || c in "ABCDEF" || c in "abcdef"
    ensures IsHex(c) ==> c == if HexValue(c) < 10 then DIGITS[HexValue(c)]
                              else if c < 'a' then "ABCDEF"[HexValue(c) - 10] else "abcdef"[HexValue(c) - 10]
  {
    IsDigit(c);
    if 'A' <= c <= 'F' {
      assert "ABCDEF"[(c - 'A') as int] == c;
    } else if 'a' <= c <= 'f' {
      assert "abcdef"[(c - 'a') as int] == c;
    }
  }

  lemma HexRoundTrip(n: int)
    requires 0 <= n < 16
    ensures IsHex(HexDigit(n)) && HexValue(HexDigit(n)) == n
    ensures HexDigit(n) != SEPARATOR
  {
  }

  lemma {:induction false} UnquoteQuote(s: string)
    requires IsBytes(s)
    ensures Unquote(Quote(s)) == s
  {
    if s != "" {
      UnquoteQuote(s[1..]);
      var c, rest := s[0], Quote(s[1..]);
      if IsUnreserved(c) {
        assert Quote(s)[1..] == rest;
      } else {
        HexRoundTrip(c as int / 16);
        HexRoundTrip(c as int % 16);
        assert Quote(s)[3..] == rest;
        assert ((16 * (c as int / 16) + c as int % 16) as char) == c;
      }
      assert s == [c] + s[1..];
    }
  }

  lemma {:induction false} QuoteHasNoSeparator(s: string)
    requires IsBytes(s)
    ensures SEPARATOR !in Quote(s)
    ensures Quote(s) == "" <==> s == ""
  {
    if s != "" {
      QuoteHasNoSeparator(s[1..]);
      var c := s[0];
      if !IsUnreserved(c) {
        HexRoundTrip(c as int / 16);
        HexRoundTrip(c as int % 16);
      }
      assert SEPARATOR !in QuoteChar(c);
    }
  }

  lemma {:induction false} SplitWithoutSeparator(s: string)
    requires SEPARATOR !in s
    ensures Split(s) == [s]
  {
    if s != "" {
      assert forall i :: 0 <= i < |s[1..]| ==> s[1..][i] in s;
      SplitWithoutSeparator(s[1..]);
      assert s == [s[0]] + s[1..];
    }
  }

  lemma {:induction false} SplitAfterSegment(head: string, tail: string)
    requires SEPARATOR !in head
    ensures Split(head + [SEPARATOR] + tail) == [head] + Split(tail)
  {
    var s := head + [SEPARATOR] + tail;
    if head == "" {
      assert s[1..] == tail;
    } else {
      assert forall i :: 0 <= i < |head[1..]| ==> head[1..][i] in head;
      SplitAfterSegment(head[1..], tail);
      assert s[1..] == head[1..] + [SEPARATOR] + tail;
      assert s[0] == head[0] && head[0] in head;
      assert head == [head[0]] + head[1..];
    }
  }

  lemma {:induction false} SplitJoin(segments: seq<string>)
    requires segments != []
    requires forall i :: 0 <= i < |segments| ==> SEPARATOR !in segments[i]
    ensures Split(Join(segments)) == segments
  {
    if |segments| == 1 {
      SplitWithoutSeparator(segments[0]);
    } else {
      SplitJoin(segments[1..]);
      SplitAfterSegment(segments[0], Join(segments[1..]));
      assert segments == [segments[0]] + segments[1..];
    }
  }

  lemma {:induction false} QuoteAllSegments(values: seq<string>)
    requires forall i :: 0 <= i < |values| ==> IsBytes(values[i])
    ensures |QuoteAll(values)| == |values|
    ensures forall i :: 0 <= i < |values| ==> SEPARATOR !in QuoteAll(values)[i]
    ensures UnquoteAll(NonEmpty(QuoteAll(values))) == NonEmpty(values)
  {
    if values != [] {
      QuoteAllSegments(values[1..]);
      QuoteHasNoSeparator(values[0]);
      UnquoteQuote(values[0]);
      var quoted := QuoteAll(values);
      assert quoted == [Quote(values[0])] + QuoteAll(values[1..]);
      assert quoted[1..] == QuoteAll(values[1..]);
      if values[0] != "" {
        assert NonEmpty(quoted) == [Quote(values[0])] + NonEmpty(quoted[1..]);
        assert NonEmpty(quoted)[1..] == NonEmpty(quoted[1..]);
      } else {
        assert NonEmpty(quoted) == NonEmpty(quoted[1..]);
        assert NonEmpty(values) == NonEmpty(values[1..]);
      }
    }
  }

  lemma {:induction false} NonEmptyLength(values: seq<string>)
    ensures |NonEmpty(values)| <= |values|
    ensures NonEmpty(values) == values <==> "" !in values
    ensures |NonEmpty(values)| == |values| <==> "" !in values
  {
    if values != [] {
      NonEmptyLength(values[1..]);
      assert values == [values[0]] + values[1..];
      assert "" in values <==> values[0] == "" || "" in values[1..];
    }
  }

  /** Splitting and unquoting an index string gives back its values, less the empty ones. */
  lemma IndexStringSplits(values: seq<string>)
    requires forall i :: 0 <= i < |values| ==> IsBytes(values[i])
    ensures UnquoteSplit(IndexString(values)) == NonEmpty(values)
    ensures UnquoteSplit(IndexString(values)) == values <==> "" !in values
  {
    QuoteAllSegments(values);
    NonEmptyLength(values);
    if values == [] {
      assert NonEmpty([""]) == [];
    } else {
      SplitJoin(QuoteAll(values));
    }
  }

  /** Hence two tuples of non-empty index values never share an index string. */
  lemma IndexStringInjective(a: seq<string>, b: seq<string>)
    requires forall i :: 0 <= i < |a| ==> IsBytes(a[i])
    requires forall i :: 0 <= i < |b| ==> IsBytes(b[i])
    requires "" !in a && "" !in b
    requires IndexString(a) == IndexString(b)
    ensures a == b
  {
    IndexStringSplits(a);
    IndexStringSplits(b);
  }

  /** The segments are what lies between the slashes. */
  lemma {:induction false} JoinSplit(s: string)
    ensures Join(Split(s)) == s && forall i, k :: 0 <= i < |Split(s)| && 0 <= k < |Split(s)[i]| ==> Split(s)[i][k] != '/'
    decreases |s|
  {
    if s != "" {
      JoinSplit(s[1..]);
      var rest := Split(s[1..]);
      assert s == [s[0]] + s[1..];
      if s[0] == SEPARATOR {
        assert ([""] + rest)[1..] == rest;
      } else if |rest| > 1 {
        assert ([[s[0]] + rest[0]] + rest[1..])[1..] == rest[1..];
      }
    }
  }
}
