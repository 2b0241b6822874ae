/** String helpers used by request validation and by the search filter. */
module Text {

  /** The characters of JavaScript's `\s` class, which the request
      sanitiser's `trim()` strips from both ends of a field. */
  predicate IsSpace(c: char) {
    || c == ' ' || c == '\t' || c == '\n' || c == '\r' || c == '\U{000B}' || c == '\U{000C}'
    || c == '\U{00A0}' || c == '\U{1680}' || ('\U{2000}' <= c <= '\U{200A}')
    || c == '\U{2028}' || c == '\U{2029}' || c == '\U{202F}' || c == '\U{205F}'
    || c == '\U{3000}' || c == '\U{FEFF}'
  }

  /** Drops leading white space: the result is a suffix of `s` that does
      not start with a space, and everything dropped was a space. */
  function TrimStart(s: string): (r: string)
    ensures |r| <= |s| && r == s[|s| - |r|..]
    ensures forall k | 0 <= k < |s| - |r| :: IsSpace(s[k])
    ensures r == [] || !IsSpace(r[0])
  {
    if |s| > 0 && IsSpace(s[0]) then TrimStart(s[1..]) else s
  }

  /** Drops trailing white space: the result is a prefix of `s` that does
      not end with a space, and everything dropped was a space. */
  function TrimEnd(s: string): (r: string)
    ensures |r| <= |s| && r == s[..|r|]
    ensures forall k | |r| <= k < |s| :: IsSpace(s[k])
    ensures r == [] || !IsSpace(r[|r| - 1])
  {
    if |s| > 0 && IsSpace(s[|s| - 1]) then TrimEnd(s[..|s| - 1]) else s
  }

  /** `r` sits in `s` at position `i` with nothing but spaces around it. */
  predicate PaddedAt(s: string, i: int, r: string) {
    && 0 <= i && i + |r| <= |s| && s[i..i + |r|] == r
    && (forall k | 0 <= k < i :: IsSpace(s[k]))
    && (forall k | i + |r| <= k < |s| :: IsSpace(s[k]))
  }

  /** The `trim()` sanitiser: neither end of the result is a space, and the
      result is `s` with only spaces removed at either end. */
  function Trim(s: string): (r: string)
    ensures r == [] || (!IsSpace(r[0]) && !IsSpace(r[|r| - 1]))
    ensures exists i :: PaddedAt(s, i, r)
  {
    var t := TrimStart(s);
    var r := TrimEnd(t);
    var i := |s| - |t|;
    assert s[i..i + |r|] == r by {
      assert t == s[i..];
      assert r == t[..|r|];
    }
    forall k | i + |r| <= k < |s|
      ensures IsSpace(s[k])
    {
      assert s[k] == t[k - i];
    }
    assert PaddedAt(s, i, r);
    r
  }

  /** Trimming twice is trimming once. */
  lemma TrimIdempotent(s: string)
    ensures Trim(Trim(s)) == Trim(s)
  {
    var r := Trim(s);
    assert TrimStart(r) == r;
    assert TrimEnd(r) == r;
  }

  /** SQLite's `LIKE` folds the case of ASCII letters only. */
  function FoldAscii(c: char): char {
    if 'A' <= c <= 'Z' then (c as int + 32) as char else c
  }

  /** `needle` matches the start of `text`, ignoring ASCII case. */
  predicate StartsWithFold(text: string, needle: string) {
    |needle| <= |text| && forall k | 0 <= k < |needle| :: FoldAscii(text[k]) == FoldAscii(needle[k])
  }

  /** `text LIKE '%needle%'`: `needle` occurs somewhere in `text`, ignoring
      ASCII case. */
  predicate ContainsFold(text: string, needle: string): (found: bool)
    ensures needle == [] ==> found
    ensures found ==> |needle| <= |text|
    decreases |text|
  {
    StartsWithFold(text, needle) || (|text| > 0 && ContainsFold(text[1..], needle))
  }

  /** `ContainsFold` is "there is a position where `needle` starts". */
  lemma {:induction false} ContainsFoldAt(text: string, needle: string)
    ensures ContainsFold(text, needle) <==> exists i | 0 <= i <= |text| :: StartsWithFold(text[i..], needle)
    decreases |text|
  {
    assert text[0..] == text;
    if |text| > 0 {
      ContainsFoldAt(text[1..], needle);
      if ContainsFold(text[1..], needle) {
        var i :| 0 <= i <= |text[1..]| && StartsWithFold(text[1..][i..], needle);
        assert text[1..][i..] == text[i + 1..];
      }
      if exists i | 0 <= i <= |text| :: StartsWithFold(text[i..], needle) {
        var i :| 0 <= i <= |text| && StartsWithFold(text[i..], needle);
        if i > 0 {
          assert text[1..][i - 1..] == text[i..];
        }
      }
    }
  }

  /** Any text that literally contains `needle` matches it. */
  lemma ContainsVerbatim(before: string, needle: string, after: string)
    ensures ContainsFold(before + needle + after, needle)
  {
    var text := before + needle + after;
    assert StartsWithFold(text[|before|..], needle);
    ContainsFoldAt(text, needle);
  }
}
