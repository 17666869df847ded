/** String helpers with Python's meaning: `str.isspace`, `str.strip` and
    `sep.join(parts)`. */
module Text {

  /** The characters Python's `str.isspace` accepts. */
  predicate IsSpace(c: char) {
    || '\U{0009}' <= c <= '\U{000D}'
    || '\U{001C}' <= c <= '\U{0020}'
    || c == '\U{0085}' || c == '\U{00A0}' || c == '\U{1680}'
    || '\U{2000}' <= c <= '\U{200A}'
    || c == '\U{2028}' || c == '\U{2029}' || c == '\U{202F}' || c == '\U{205F}' || c == '\U{3000}'
  }

  /** `s.lstrip()`: the suffix left after removing leading whitespace. */
  function TrimLeft(s: string): (r: string)
    ensures |r| <= |s| && r == s[|s| - |r|..]
    ensures forall i | 0 <= i < |s| - |r| :: IsSpace(s[i])
    ensures r != [] ==> !IsSpace(r[0])
  {
    if s != [] && IsSpace(s[0]) then
      var t := TrimLeft(s[1..]);
      assert s[1..][|s| - 1 - |t|..] == s[|s| - |t|..];
      assert forall i | 1 <= i < |s| - |t| :: s[i] == s[1..][i - 1];
      t
    else s
  }

  /** `s.rstrip()`: the prefix left after removing trailing whitespace. */
  function TrimRight(s: string): (r: string)
    ensures |r| <= |s| && r == s[..|r|]
    ensures forall i | |r| <= i < |s| :: IsSpace(s[i])
    ensures r != [] ==> !IsSpace(r[|r| - 1])
  {
    if s != [] && IsSpace(s[|s| - 1]) then
      var t := TrimRight(s[..|s| - 1]);
      assert s[..|s| - 1][..|t|] == s[..|t|];
      assert forall i | |t| <= i < |s| - 1 :: s[i] == s[..|s| - 1][i];
      t
    else s
  }

  /** `r` is the slice of `s` starting at `a`, and everything of `s` before
      and after that slice is whitespace. */
  predicate StrippedAt(s: string, r: string, a: nat) {
    && a + |r| <= |s|
    && r == s[a..a + |r|]
    && (forall i | 0 <= i < a :: IsSpace(s[i]))
    && (forall i | a + |r| <= i < |s| :: IsSpace(s[i]))
  }

  /** `s.strip()`: the text without leading and trailing whitespace. */
  function Strip(s: string): (r: string)
    ensures |r| <= |s|
    ensures exists a | 0 <= a <= |s| - |r| :: StrippedAt(s, r, a)
    ensures r == [] <==> forall i | 0 <= i < |s| :: IsSpace(s[i])
    ensures r != [] ==> !IsSpace(r[0]) && !IsSpace(r[|r| - 1])
  {
    var left := TrimLeft(s);
    var r := TrimRight(left);
    assert StrippedAt(s, r, |s| - |left|);
    r
  }

  /** Stripping twice is stripping once. */
  lemma StripIdempotent(s: string)
    ensures Strip(Strip(s)) == Strip(s)
  {
    var r := Strip(s);
    if r != [] {
      assert TrimLeft(r) == r;
      assert TrimRight(r) == r;
    }
  }

  /** `sep.join(parts)`. */
  function Join(parts: seq<string>, sep: string): string
  {
    if parts == [] then []
    else if |parts| == 1 then parts[0]
    else Join(parts[..|parts| - 1], sep) + sep + parts[|parts| - 1]
  }
}
