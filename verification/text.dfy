/**
 * Whitespace trimming, the `str.strip()` the validator applies to element text.
 * Whitespace here is exactly six characters: tab, line feed, vertical tab,
 * form feed, carriage return and space. The separators 0x1C-0x1F, which
 * `str.strip()` also removes, cannot occur in XML 1.0 text.
 */
module Text {

  predicate IsSpace(c: char) {
    c == ' ' || '\t' <= c <= '\r'
  }

  /** True when every character of `s` is whitespace (vacuously so for ""). */
  predicate AllSpace(s: string) {
    forall k :: 0 <= k < |s| ==> IsSpace(s[k])
  }

  /** The number of whitespace characters `s` starts with. */
  function Lead(s: string): (n: nat)
    ensures n <= |s|
  {
    if s == [] || !IsSpace(s[0]) then 0 else 1 + Lead(s[1..])
  }

  /** `s` without its trailing whitespace. */
  function TrimEnd(s: string): string {
    if s == [] || !IsSpace(s[|s| - 1]) then s else TrimEnd(s[..|s| - 1])
  }

  /** `s` with whitespace removed at both ends. */
  function Strip(s: string): string {
    TrimEnd(s[Lead(s)..])
  }

  /** `Lead(s)` counts exactly the leading whitespace: all of it, and no more. */
  lemma {:induction false} LeadSpec(s: string)
    ensures AllSpace(s[..Lead(s)])
    ensures Lead(s) == |s| || !IsSpace(s[Lead(s)])
  {
    if s != [] && IsSpace(s[0]) {
      LeadSpec(s[1..]);
      assert s[..Lead(s)] == [s[0]] + s[1..][..Lead(s[1..])];
    }
  }

  /** `TrimEnd(s)` is the longest prefix of `s` that does not end in whitespace. */
  lemma {:induction false} TrimEndSpec(s: string)
    ensures |TrimEnd(s)| <= |s| && TrimEnd(s) == s[..|TrimEnd(s)|]
    ensures AllSpace(s[|TrimEnd(s)|..])
    ensures TrimEnd(s) == [] || !IsSpace(TrimEnd(s)[|TrimEnd(s)| - 1])
  {
    if s != [] && IsSpace(s[|s| - 1]) {
      var t := s[..|s| - 1];
      TrimEndSpec(t);
      assert t[..|TrimEnd(t)|] == s[..|TrimEnd(t)|];
      assert s[|TrimEnd(t)|..] == t[|TrimEnd(t)|..] + [s[|s| - 1]];
    }
  }

  /**
   * `Strip(s)` is the slice of `s` that starts after its leading whitespace and
   * is followed only by whitespace.
   */
  lemma StripSpec(s: string)
    ensures var r := Strip(s);
      && Lead(s) + |r| <= |s| && r == s[Lead(s)..Lead(s) + |r|]
      && AllSpace(s[..Lead(s)]) && AllSpace(s[Lead(s) + |r|..])
  {
    var a := Lead(s);
    LeadSpec(s);
    var t := s[a..];
    TrimEndSpec(t);
    var r := TrimEnd(t);
    assert r == s[a..a + |r|];
    assert s[a + |r|..] == t[|r|..];
  }

  /**
   * `Strip(s)` neither starts nor ends with whitespace, and it is empty exactly
   * when `s` is all whitespace.
   */
  lemma StripEnds(s: string)
    ensures var r := Strip(s);
      && (r == [] || (!IsSpace(r[0]) && !IsSpace(r[|r| - 1])))
      && (r == [] <==> AllSpace(s))
  {
    var a := Lead(s);
    LeadSpec(s);
    var t := s[a..];
    TrimEndSpec(t);
    var r := TrimEnd(t);
    assert r != [] ==> r[0] == s[a];
    if r == [] {
      assert AllSpace(s[a..]) by {
        assert s[a..] == t[|r|..];
      }
      assert s == s[..a] + s[a..];
    } else {
      assert !AllSpace(s) by {
        assert !IsSpace(s[a]);
      }
    }
  }

  /** Stripping is idempotent: text that was already stripped is unchanged. */
  lemma StripIdempotent(s: string)
    ensures Strip(Strip(s)) == Strip(s)
  {
    var r := Strip(s);
    StripEnds(s);
    if r != [] {
      StripKeepsTrimmed(r);
    }
  }

  /** Text that neither starts nor ends with whitespace is left as it is. */
  lemma StripKeepsTrimmed(s: string)
    requires s != [] && !IsSpace(s[0]) && !IsSpace(s[|s| - 1])
    ensures Strip(s) == s
  {
    assert Lead(s) == 0;
    assert s[0..] == s;
  }
}
