/** Strings and JavaScript's `String.prototype.trim`, over Unicode code points. */
module Text {

  /** The characters `trim` strips: the ECMAScript WhiteSpace and LineTerminator
      productions, that is TAB, LF, VT, FF, CR, every Unicode space separator (Zs),
      the byte-order mark U+FEFF and the line and paragraph separators U+2028 and U+2029. */
  predicate IsWhitespace(c: char) {
    var n := c as int;
    n == 0x09 || n == 0x0A || n == 0x0B || n == 0x0C || n == 0x0D
    || n == 0x20 || n == 0xA0 || n == 0x1680 || (0x2000 <= n <= 0x200A)
    || n == 0x2028 || n == 0x2029 || n == 0x202F || n == 0x205F
    || n == 0x3000 || n == 0xFEFF
  }

  /** Empty or made of whitespace only. */
  predicate IsBlank(s: string) {
    forall i :: 0 <= i < |s| ==> IsWhitespace(s[i])
  }

  /** Neither begins nor ends with whitespace. */
  predicate IsTrimmed(s: string) {
    s == [] || (!IsWhitespace(s[0]) && !IsWhitespace(s[|s| - 1]))
  }

  /** The number of whitespace characters at the start of `s`. */
  function LeadingSpace(s: string): (n: nat)
    ensures n <= |s|
    ensures forall i :: 0 <= i < n ==> IsWhitespace(s[i])
    ensures n < |s| ==> !IsWhitespace(s[n])
  {
    if s != [] && IsWhitespace(s[0]) then
      var m := LeadingSpace(s[1..]);
      assert forall i :: 1 <= i < m + 1 ==> s[i] == s[1..][i - 1];
      1 + m
    else
      0
  }

  /** The number of whitespace characters at the end of `s`. */
  function TrailingSpace(s: string): (n: nat)
    ensures n <= |s|
    ensures forall i :: |s| - n <= i < |s| ==> IsWhitespace(s[i])
    ensures n < |s| ==> !IsWhitespace(s[|s| - 1 - n])
  {
    if s != [] && IsWhitespace(s[|s| - 1]) then
      var init := s[..|s| - 1];
      var m := TrailingSpace(init);
      assert forall i :: |s| - (m + 1) <= i < |s| - 1 ==> s[i] == init[i];
      1 + m
    else
      0
  }

  /** `s` without its leading whitespace. */
  function TrimStart(s: string): (r: string)
    ensures r == [] || !IsWhitespace(r[0])
  {
    s[LeadingSpace(s)..]
  }

  /** `s` without its trailing whitespace. */
  function TrimEnd(s: string): (r: string)
    ensures r == [] || !IsWhitespace(r[|r| - 1])
    ensures r == [] <==> IsBlank(s)
    ensures r != [] ==> r[0] == s[0]
  {
    s[..|s| - TrailingSpace(s)]
  }

  /** `s.trim()`: `s` without its leading and trailing whitespace. The result is
      trimmed, and it is empty exactly when `s` is blank (the falsy case of the
      source's `if (s.trim())` tests). */
  function Trim(s: string): (r: string)
    ensures IsTrimmed(r)
    ensures r == [] <==> IsBlank(s)
  {
    var rest := TrimStart(s);
    assert IsBlank(rest) ==> IsBlank(s) by {
      if IsBlank(rest) {
        assert rest == [];
        assert LeadingSpace(s) == |s|;
      }
    }
    TrimEnd(rest)
  }

  /** A blank prefix followed by anything: the leading whitespace is exactly the prefix. */
  lemma {:induction false} LeadingSpaceOfPadded(pad: string, u: string)
    requires IsBlank(pad)
    requires u == [] || !IsWhitespace(u[0])
    ensures LeadingSpace(pad + u) == |pad|
  {
    if pad != [] {
      assert (pad + u)[1..] == pad[1..] + u;
      LeadingSpaceOfPadded(pad[1..], u);
    } else {
      assert pad + u == u;
    }
  }

  /** Anything followed by a blank suffix: the trailing whitespace is exactly the suffix. */
  lemma {:induction false} TrailingSpaceOfPadded(u: string, pad: string)
    requires IsBlank(pad)
    requires u == [] || !IsWhitespace(u[|u| - 1])
    ensures TrailingSpace(u + pad) == |pad|
  {
    if pad != [] {
      var s := u + pad;
      assert s[..|s| - 1] == u + pad[..|pad| - 1];
      TrailingSpaceOfPadded(u, pad[..|pad| - 1]);
    } else {
      assert u + pad == u;
    }
  }

  /** Reference characterisation of `trim`: padding a trimmed string with
      whitespace on either side and trimming gives the string back. */
  lemma TrimOfPadded(before: string, t: string, after: string)
    requires IsBlank(before) && IsBlank(after) && IsTrimmed(t)
    ensures Trim(before + t + after) == t
  {
    var s := before + t + after;
    if t == [] {
      assert s == before + after;
      assert IsBlank(s) by {
        forall i | 0 <= i < |s| ensures IsWhitespace(s[i]) {
          if i < |before| { assert s[i] == before[i]; } else { assert s[i] == after[i - |before|]; }
        }
      }
    } else {
      assert s == before + (t + after);
      LeadingSpaceOfPadded(before, t + after);
      var rest := s[|before|..];
      assert rest == t + after;
      TrailingSpaceOfPadded(t, after);
      assert rest[..|rest| - |after|] == t;
    }
  }

  /** Every string is its leading whitespace followed by the rest. */
  lemma TrimStartDecomposes(s: string) returns (before: string)
    ensures IsBlank(before) && s == before + TrimStart(s)
  {
    before := s[..LeadingSpace(s)];
    assert s == before + s[LeadingSpace(s)..];
  }

  /** Every string is the rest followed by its trailing whitespace. */
  lemma TrimEndDecomposes(s: string) returns (after: string)
    ensures IsBlank(after) && s == TrimEnd(s) + after
  {
    var k := |s| - TrailingSpace(s);
    after := s[k..];
    assert TrimEnd(s) == s[..k];
    assert s == s[..k] + after;
    forall i | 0 <= i < |after| ensures IsWhitespace(after[i]) {
      assert after[i] == s[k + i];
    }
  }

  /** Every string is its trim with a blank prefix and a blank suffix added back. */
  lemma TrimDecomposes(s: string) returns (before: string, after: string)
    ensures IsBlank(before) && IsBlank(after)
    ensures s == before + Trim(s) + after
  {
    before := TrimStartDecomposes(s);
    var rest := TrimStart(s);
    after := TrimEndDecomposes(rest);
    assert Trim(s) == TrimEnd(rest);
    assert before + Trim(s) + after == before + (Trim(s) + after);
  }

  /** The strings `trim` leaves alone are exactly the trimmed ones. */
  lemma TrimFixesTrimmed(t: string)
    ensures Trim(t) == t <==> IsTrimmed(t)
  {
    if IsTrimmed(t) {
      assert [] + t + [] == t;
      TrimOfPadded([], t, []);
    }
  }

  /** `trim` is idempotent. */
  lemma TrimIdempotent(s: string)
    ensures Trim(Trim(s)) == Trim(s)
  {
    TrimFixesTrimmed(Trim(s));
  }
}
