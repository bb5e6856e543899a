/** BuildLikePrefixClause and the LIKE predicate it relies on
    (internal/datastore/common/sql.go:978-990). */
module LikePrefix {
  import opened Wrappers
  import opened Strings

  const ESCAPE := '\\'

  /** The LIKE predicate of section 8.5 of ISO/IEC 9075:1992 with the backslash escape that
      PostgreSQL and MySQL use by default. A pattern that ends in a lone escape matches nothing. */
  predicate Like(pattern: string, s: string)
    decreases |pattern| + |s|
  {
    if pattern == "" then s == ""
    else if pattern[0] == '%' then Like(pattern[1..], s) || (s != "" && Like(pattern, s[1..]))
    else if pattern[0] == '_' then s != "" && Like(pattern[1..], s[1..])
    else if pattern[0] == ESCAPE then
      |pattern| >= 2 && s != "" && s[0] == pattern[1] && Like(pattern[2..], s[1..])
    else s != "" && s[0] == pattern[0] && Like(pattern[1..], s[1..])
  }

  datatype PrefixError = EmptyPrefix | PercentInPrefix

  /** The pattern BuildLikePrefixClause hands to the database: backslashes are doubled first,
      underscores are escaped second, then the wildcard is appended. */
  function BuildLikePrefix(prefix: string): Result<string, PrefixError> {
    if prefix == "" then Err(EmptyPrefix)
    else if '%' in prefix then Err(PercentInPrefix)
    else
      var doubled := ReplaceAll(prefix, ESCAPE, [ESCAPE, ESCAPE]);
      var escaped := ReplaceAll(doubled, '_', [ESCAPE, '_']);
      Ok(escaped + "%")
  }

  /** What one character of the prefix becomes after both replacement passes. */
  function EscapedChar(c: char): string {
    if c == ESCAPE then [ESCAPE, ESCAPE] else if c == '_' then [ESCAPE, '_'] else [c]
  }

  function Escaped(prefix: string): string {
    if prefix == "" then "" else EscapedChar(prefix[0]) + Escaped(prefix[1..])
  }

  lemma {:induction false} ReplaceAllAppend(a: string, b: string, old_: char, new_: string)
    ensures ReplaceAll(a + b, old_, new_) == ReplaceAll(a, old_, new_) + ReplaceAll(b, old_, new_)
  {
    if a == "" {
      assert a + b == b;
    } else {
      assert (a + b)[0] == a[0] && (a + b)[1..] == a[1..] + b;
      ReplaceAllAppend(a[1..], b, old_, new_);
    }
  }

  /** The second pass leaves what the first pass wrote alone, so the two passes together
      escape character by character. */
  lemma {:induction false} TwoPassesEscapeEachChar(prefix: string)
    ensures ReplaceAll(ReplaceAll(prefix, ESCAPE, [ESCAPE, ESCAPE]), '_', [ESCAPE, '_']) == Escaped(prefix)
  {
    if prefix == "" {
    } else {
      var first := if prefix[0] == ESCAPE then [ESCAPE, ESCAPE] else [prefix[0]];
      ReplaceAllAppend(first, ReplaceAll(prefix[1..], ESCAPE, [ESCAPE, ESCAPE]), '_', [ESCAPE, '_']);
      assert ReplaceAll(first[1..], '_', [ESCAPE, '_']) == first[1..] by {
        assert |first| == 2 ==> first[1..] == [ESCAPE] && first[1..][1..] == "";
      }
      TwoPassesEscapeEachChar(prefix[1..]);
    }
  }

  lemma {:induction false} PercentMatchesAll(s: string)
    ensures Like("%", s)
  {
    assert "%"[1..] == "";
    if s != "" {
      PercentMatchesAll(s[1..]);
    }
  }

  lemma {:induction false} EscapedMatchesPrefix(prefix: string, s: string)
    requires '%' !in prefix
    ensures Like(Escaped(prefix) + "%", s) <==> HasPrefix(s, prefix)
  {
    if prefix == "" {
      assert Escaped(prefix) + "%" == "%";
      PercentMatchesAll(s);
    } else {
      var rest := Escaped(prefix[1..]) + "%";
      var pattern := Escaped(prefix) + "%";
      var head := EscapedChar(prefix[0]);
      assert pattern == head + rest;
      assert prefix[0] != '%';
      assert pattern[|head|..] == rest;
      assert Like(pattern, s) <==> s != "" && s[0] == prefix[0] && Like(rest, s[1..]);
      if s != "" {
        EscapedMatchesPrefix(prefix[1..], s[1..]);
        assert prefix <= s <==> prefix[0] == s[0] && prefix[1..] <= s[1..] by {
          assert prefix == [prefix[0]] + prefix[1..] && s == [s[0]] + s[1..];
        }
      }
    }
  }

  /** The clause is built exactly for the non-empty prefixes without a percent sign, and then it
      selects exactly the strings that memdb's HasPrefix test keeps. */
  lemma LikePrefixExact(prefix: string, s: string)
    ensures BuildLikePrefix(prefix).Ok? <==> prefix != "" && '%' !in prefix
    ensures BuildLikePrefix(prefix).Ok? ==>
              (Like(BuildLikePrefix(prefix).value, s) <==> HasPrefix(s, prefix))
  {
    if prefix != "" && '%' !in prefix {
      TwoPassesEscapeEachChar(prefix);
      EscapedMatchesPrefix(prefix, s);
    }
  }
}
