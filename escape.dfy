/** The minimal JSON string escaper: six characters are escaped, every other
    character (other control characters included) is copied as it is. */
module JsonEscape {
  import opened Wrappers
  import opened Text

  /** The characters the escaper rewrites: NUL, 0x01, newline, 0x1F, the
      double quote and the backslash. */
  predicate IsEscaped(c: char) {
    c == 0 as char || c == 1 as char || c == '\n' || c == 0x1F as char || c == '"' || c == '\\'
  }

  /** The raw control characters that never survive escaping. */
  predicate IsEscapedControl(c: char) {
    c == 0 as char || c == 1 as char || c == '\n' || c == 0x1F as char
  }

  /** The text written for one character. */
  function EscapeChar(c: char): (r: string)
    ensures !IsEscaped(c) ==> r == [c]
    ensures IsEscaped(c) ==> |r| >= 2 && r[0] == '\\' && forall i :: 0 <= i < |r| ==> !IsEscapedControl(r[i])
  {
    if c == 0 as char then "\\u0000"
    else if c == 1 as char then "\\u0001"
    else if c == '\n' then "\\n"
    else if c == 0x1F as char then "\\u001f"
    else if c == '"' then "\\\""
    else if c == '\\' then "\\\\"
    else [c]
  }

  /** The escaped form of a string, character by character. */
  function Escaped(s: string): string {
    if |s| == 0 then "" else EscapeChar(s[0]) + Escaped(s[1..])
  }

  /** escape_string: the per-character loop writing into a stream. */
  method EscapeString(s: string) returns (o: string)
    ensures o == Escaped(s)
  {
    o := "";
    for i := 0 to |s|
      invariant o == Escaped(s[..i])
    {
      var c := s[i];
      if c == 0 as char {
        o := o + "\\u0000";
      } else if c == 1 as char {
        o := o + "\\u0001";
      } else if c == '\n' {
        o := o + "\\n";
      } else if c == 0x1F as char {
        o := o + "\\u001f";
      } else if c == '"' {
        o := o + "\\\"";
      } else if c == '\\' {
        o := o + "\\\\";
      } else {
        o := o + [c];
      }
      assert s[..i + 1] == s[..i] + [c];
      EscapedConcat(s[..i], [c]);
    }
    assert s[..|s|] == s;
  }

  /** Escaping distributes over concatenation. */
  lemma {:induction false} EscapedConcat(a: string, b: string)
    ensures Escaped(a + b) == Escaped(a) + Escaped(b)
  {
    if |a| == 0 {
      assert a + b == b;
    } else {
      assert (a + b)[1..] == a[1..] + b;
      EscapedConcat(a[1..], b);
    }
  }

  /** A string with none of the six characters is its own escaped form. */
  lemma {:induction false} EscapedIdentity(s: string)
    requires forall i :: 0 <= i < |s| ==> !IsEscaped(s[i])
    ensures Escaped(s) == s
  {
    if |s| > 0 {
      EscapedIdentity(s[1..]);
    }
  }

  /** The output holds no raw NUL, 0x01, newline or 0x1F. */
  lemma {:induction false} EscapedHasNoRawControls(s: string)
    ensures forall i :: 0 <= i < |Escaped(s)| ==> !IsEscapedControl(Escaped(s)[i])
  {
    if |s| > 0 {
      EscapedHasNoRawControls(s[1..]);
      var head, tail := EscapeChar(s[0]), Escaped(s[1..]);
      assert Escaped(s) == head + tail;
      forall i | 0 <= i < |head + tail| ensures !IsEscapedControl((head + tail)[i]) {
        if i >= |head| {
          assert (head + tail)[i] == tail[i - |head|];
        }
      }
    }
  }

  function Prepend(c: char, rest: Option<string>): Option<string> {
    match rest
    case None => None
    case Some(t) => Some([c] + t)
  }

  /** The reading of an escaped string: each escape sequence stands for its
      character, a backslash starting anything else is an error, and every
      other character stands for itself. */
  function Unescape(s: string): Option<string>
    decreases |s|
  {
    if |s| == 0 then Some("")
    else if s[0] != '\\' then Prepend(s[0], Unescape(s[1..]))
    else if StartsWith(s, "\\u0000") then Prepend(0 as char, Unescape(s[6..]))
    else if StartsWith(s, "\\u0001") then Prepend(1 as char, Unescape(s[6..]))
    else if StartsWith(s, "\\u001f") then Prepend(0x1F as char, Unescape(s[6..]))
    else if StartsWith(s, "\\n") then Prepend('\n', Unescape(s[2..]))
    else if StartsWith(s, "\\\"") then Prepend('"', Unescape(s[2..]))
    else if StartsWith(s, "\\\\") then Prepend('\\', Unescape(s[2..]))
    else None
  }

  /** Reading one six-character escape back, ahead of any text. */
  lemma UnescapeLong(e: string, c: char, t: string)
    requires (e, c) == ("\\u0000", 0 as char) || (e, c) == ("\\u0001", 1 as char) || (e, c) == ("\\u001f", 0x1F as char)
    ensures Unescape(e + t) == Prepend(c, Unescape(t))
  {
    var s := e + t;
    assert s[..6] == e;
    assert s[6..] == t;
    assert s[0] == '\\';
    assert s[5] == e[5];
    assert StartsWith(s, "\\u0000") <==> c == 0 as char;
    assert StartsWith(s, "\\u0001") <==> c == 1 as char;
  }

  /** Reading one two-character escape back, ahead of any text. */
  lemma UnescapeShort(e: string, c: char, t: string)
    requires (e, c) == ("\\n", '\n') || (e, c) == ("\\\"", '"') || (e, c) == ("\\\\", '\\')
    ensures Unescape(e + t) == Prepend(c, Unescape(t))
  {
    var s := e + t;
    assert s[..2] == e;
    assert s[2..] == t;
    assert s[0] == '\\';
    assert s[1] == e[1];
    assert !StartsWith(s, "\\u0000") && !StartsWith(s, "\\u0001") && !StartsWith(s, "\\u001f");
    assert StartsWith(s, "\\n") <==> c == '\n';
    assert StartsWith(s, "\\\"") <==> c == '"';
  }

  /** Reading one escaped character back, ahead of any text. */
  lemma UnescapeChar(c: char, t: string)
    ensures Unescape(EscapeChar(c) + t) == Prepend(c, Unescape(t))
  {
    if c == 0 as char || c == 1 as char || c == 0x1F as char {
      UnescapeLong(EscapeChar(c), c, t);
    } else if c == '\n' || c == '"' || c == '\\' {
      UnescapeShort(EscapeChar(c), c, t);
    } else {
      assert ([c] + t)[1..] == t;
    }
  }

  /** Escaping loses nothing: reading the output back gives the input. */
  lemma {:induction false} UnescapeEscaped(s: string)
    ensures Unescape(Escaped(s)) == Some(s)
  {
    if |s| > 0 {
      UnescapeChar(s[0], Escaped(s[1..]));
      UnescapeEscaped(s[1..]);
      assert [s[0]] + s[1..] == s;
    }
  }

  /** Distinct strings escape differently. */
  lemma EscapedInjective(a: string, b: string)
    requires Escaped(a) == Escaped(b)
    ensures a == b
  {
    UnescapeEscaped(a);
    UnescapeEscaped(b);
  }

  lemma EscapeExamples()
    ensures Escaped("a\"b") == "a\\\"b"
    ensures Escaped([2 as char]) == [2 as char]
    ensures Escaped("x\ny") == "x\\ny"
  {
    assert "a\"b"[1..] == "\"b";
    assert "a\"b"[1..][1..] == "b";
    assert "x\ny"[1..] == "\ny";
    assert "x\ny"[1..][1..] == "y";
  }
}
