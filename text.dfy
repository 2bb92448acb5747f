/** String helpers shared by the format tables and the serialisers: prefix
    tests, joining with a separator (and splitting back), and the decimal
    rendering that `std::ostream << int` performs. */
module Text {
  import opened Wrappers

  /** `s.rfind(prefix, 0) == 0`: s begins with prefix. */
  predicate StartsWith(s: string, prefix: string) {
    |prefix| <= |s| && s[..|prefix|] == prefix
  }

  /** Two prefixes of one string nest: the shorter is a prefix of the longer. */
  lemma PrefixesNest(s: string, p: string, q: string)
    requires StartsWith(s, p) && StartsWith(s, q) && |p| <= |q|
    ensures StartsWith(q, p)
  {
    assert q[..|p|] == s[..|q|][..|p|];
  }

  /** The parts separated by sep, with no leading or trailing separator. */
  function Join(parts: seq<string>, sep: string): (r: string)
    ensures |parts| > 0 ==> StartsWith(r, parts[0])
    ensures |parts| == 0 ==> r == ""
  {
    if |parts| == 0 then ""
    else if |parts| == 1 then parts[0]
    else parts[0] + sep + Join(parts[1..], sep)
  }

  /** Every part followed by sep: what a stream holds after writing each
      part and its separator. */
  function Terminated(parts: seq<string>, sep: string): string {
    if |parts| == 0 then "" else parts[0] + sep + Terminated(parts[1..], sep)
  }

  /** Writing one more part and its separator extends the terminated form. */
  lemma {:induction false} TerminatedSnoc(parts: seq<string>, p: string, sep: string)
    ensures Terminated(parts + [p], sep) == Terminated(parts, sep) + p + sep
  {
    if |parts| > 0 {
      assert (parts + [p])[1..] == parts[1..] + [p];
      TerminatedSnoc(parts[1..], p, sep);
    }
  }

  /** Ending a terminated stream with a part that has no separator after it
      yields the joined form: this is how the source avoids a trailing
      separator. */
  lemma {:induction false} TerminatedThenLast(parts: seq<string>, last: string, sep: string)
    ensures Terminated(parts, sep) + last == Join(parts + [last], sep)
  {
    if |parts| > 0 {
      assert (parts + [last])[1..] == parts[1..] + [last];
      TerminatedThenLast(parts[1..], last, sep);
    }
  }

  /** Joining one more part: the separator goes in only between two parts. */
  lemma {:induction false} JoinSnoc(parts: seq<string>, p: string, sep: string)
    ensures Join(parts + [p], sep) == if |parts| == 0 then p else Join(parts, sep) + sep + p
  {
    if |parts| == 1 {
    } else if |parts| > 1 {
      assert (parts + [p])[1..] == parts[1..] + [p];
      JoinSnoc(parts[1..], p, sep);
    }
  }

  /** The index of the first c in s, or |s| when s has none. */
  function IndexOf(s: string, c: char): (k: nat)
    ensures k <= |s|
    ensures forall j :: 0 <= j < k ==> s[j] != c
    ensures k < |s| ==> s[k] == c
  {
    if |s| == 0 then 0 else if s[0] == c then 0 else 1 + IndexOf(s[1..], c)
  }

  /** The pieces of s between occurrences of sep (found by its first character). */
  function Split(s: string, sep: string): (r: seq<string>)
    requires |sep| > 0
    ensures |r| > 0
    decreases |s|
  {
    var k := IndexOf(s, sep[0]);
    if k == |s| then [s]
    else [s[..k]] + Split(s[if k + |sep| <= |s| then k + |sep| else |s|..], sep)
  }

  /** Split undoes Join when no part contains the separator's first character. */
  lemma {:induction false} SplitJoin(parts: seq<string>, sep: string)
    requires |parts| > 0 && |sep| > 0
    requires forall i :: 0 <= i < |parts| ==> sep[0] !in parts[i]
    ensures Split(Join(parts, sep), sep) == parts
  {
    var p := parts[0];
    if |parts| == 1 {
      assert IndexOf(p, sep[0]) == |p|;
    } else {
      var rest := Join(parts[1..], sep);
      var s := Join(parts, sep);
      assert s == p + (sep + rest);
      assert s[|p|] == sep[0];
      assert IndexOf(s, sep[0]) == |p|;
      assert s[..|p|] == p;
      assert s[|p| + |sep|..] == rest;
      SplitJoin(parts[1..], sep);
    }
  }

  /** The decimal digit for d. */
  function DigitChar(d: nat): (c: char)
    requires d < 10
    ensures '0' <= c <= '9'
  {
    ('0' as int + d) as char
  }

  predicate IsDigit(c: char) {
    '0' <= c <= '9'
  }

  /** Decimal digits of n, most significant first, without leading zeros. */
  function NatToString(n: nat): (s: string)
    ensures |s| > 0 && forall i :: 0 <= i < |s| ==> IsDigit(s[i])
    ensures n == 0 <==> s == "0"
    ensures n > 0 ==> s[0] != '0'
    decreases n
  {
    if n < 10 then [DigitChar(n)] else NatToString(n / 10) + [DigitChar(n % 10)]
  }

  /** How `std::ostream << int` renders n: a '-' exactly for negatives, then
      the decimal digits of |n| with no leading zero. */
  function IntToString(n: int): (s: string)
    ensures |s| > 0
    ensures forall i :: 0 <= i < |s| ==> IsDigit(s[i]) || (i == 0 && s[i] == '-')
    ensures s[0] == '-' <==> n < 0
    ensures n < 0 ==> |s| > 1 && s[1] != '0'
    ensures n >= 0 ==> s == "0" || s[0] != '0'
  {
    if n < 0 then "-" + NatToString(-n) else NatToString(n)
  }

  /** The value of a non-empty string of decimal digits, None for anything else. */
  function ParseNat(s: string): (r: Option<nat>)
    ensures r.Some? ==> |s| > 0
  {
    if |s| == 0 || !IsDigit(s[|s| - 1]) then None
    else if |s| == 1 then Some(s[0] as int - '0' as int)
    else
      match ParseNat(s[..|s| - 1])
      case None => None
      case Some(high) => Some(10 * high + (s[|s| - 1] as int - '0' as int))
  }

  /** The value of an optionally negative decimal numeral. */
  function ParseInt(s: string): (r: Option<int>) {
    if |s| > 0 && s[0] == '-' then
      match ParseNat(s[1..])
      case None => None
      case Some(n) => Some(-(n as int))
    else
      match ParseNat(s)
      case None => None
      case Some(n) => Some(n)
  }

  lemma {:induction false} ParseNatToString(n: nat)
    ensures ParseNat(NatToString(n)) == Some(n)
    decreases n
  {
    if n >= 10 {
      var s := NatToString(n);
      assert s[..|s| - 1] == NatToString(n / 10);
      ParseNatToString(n / 10);
    }
  }

  /** The rendering of integers loses nothing: it parses back to the same value. */
  lemma IntToStringParses(n: int)
    ensures ParseInt(IntToString(n)) == Some(n)
  {
    if n < 0 {
      assert IntToString(n)[1..] == NatToString(-n);
      ParseNatToString(-n);
    } else {
      ParseNatToString(n);
    }
  }

  /** Distinct integers render differently. */
  lemma IntToStringInjective(a: int, b: int)
    requires IntToString(a) == IntToString(b)
    ensures a == b
  {
    IntToStringParses(a);
    IntToStringParses(b);
  }
}
