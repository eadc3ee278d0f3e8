/** The string operations of Python's `str` that the pipeline relies on:
    `strip()` with no argument, `sep.join(pages)` and `lower()`. */
module Text {

  /** `str.isspace()` for one code point: the characters that `strip()` removes by default. */
  predicate IsSpace(c: char) {
    var n := c as int;
    n == 0x20 || 0x09 <= n <= 0x0D || 0x1C <= n <= 0x1F || n == 0x85 || n == 0xA0
    || n == 0x1680 || 0x2000 <= n <= 0x200A || n == 0x2028 || n == 0x2029
    || n == 0x202F || n == 0x205F || n == 0x3000
  }

  predicate AllSpace(s: string) {
    forall i :: 0 <= i < |s| ==> IsSpace(s[i])
  }

  /** The number of whitespace characters `s.lstrip()` removes. */
  function LeadingSpaces(s: string): (n: nat)
    ensures n <= |s|
  {
    if s != [] && IsSpace(s[0]) then 1 + LeadingSpaces(s[1..]) else 0
  }

  /** The number of whitespace characters `s.rstrip()` removes. */
  function TrailingSpaces(s: string): (n: nat)
    ensures n <= |s|
  {
    if s != [] && IsSpace(s[|s| - 1]) then 1 + TrailingSpaces(s[..|s| - 1]) else 0
  }

  /** `s.strip()`: `lstrip` followed by `rstrip`. */
  function Strip(s: string): (r: string)
    ensures |r| <= |s|
  {
    var t := s[LeadingSpaces(s)..];
    t[..|t| - TrailingSpaces(t)]
  }

  lemma {:induction false} LeadingSpacesShape(s: string)
    ensures AllSpace(s[..LeadingSpaces(s)])
    ensures LeadingSpaces(s) < |s| ==> !IsSpace(s[LeadingSpaces(s)])
  {
    if s != [] && IsSpace(s[0]) {
      LeadingSpacesShape(s[1..]);
      assert s[..LeadingSpaces(s)] == [s[0]] + s[1..][..LeadingSpaces(s[1..])];
    }
  }

  lemma {:induction false} TrailingSpacesShape(s: string)
    ensures AllSpace(s[|s| - TrailingSpaces(s)..])
    ensures TrailingSpaces(s) < |s| ==> !IsSpace(s[|s| - TrailingSpaces(s) - 1])
  {
    if s != [] && IsSpace(s[|s| - 1]) {
      var u := s[..|s| - 1];
      TrailingSpacesShape(u);
      assert s[|s| - TrailingSpaces(s)..] == u[|u| - TrailingSpaces(u)..] + [s[|s| - 1]];
    }
  }

  /** `Strip(s)` cut by the whitespace run it starts after and the one it ends before. */
  lemma StripBounds(s: string)
    ensures LeadingSpaces(s) + |Strip(s)| <= |s|
    ensures Strip(s) == s[LeadingSpaces(s)..LeadingSpaces(s) + |Strip(s)|]
    ensures s[LeadingSpaces(s) + |Strip(s)|..] == s[LeadingSpaces(s)..][|s| - LeadingSpaces(s) - TrailingSpaces(s[LeadingSpaces(s)..])..]
  {
    var k := LeadingSpaces(s);
    var t := s[k..];
    var r := t[..|t| - TrailingSpaces(t)];
    assert Strip(s) == r;
    assert r == s[k..k + |r|];
  }

  /** `Strip(s)` is the infix of `s` left after removing whitespace, and only whitespace, on
      both sides, and it neither begins nor ends with whitespace. */
  lemma StripShape(s: string)
    ensures LeadingSpaces(s) + |Strip(s)| <= |s|
    ensures Strip(s) == s[LeadingSpaces(s)..LeadingSpaces(s) + |Strip(s)|]
    ensures AllSpace(s[..LeadingSpaces(s)]) && AllSpace(s[LeadingSpaces(s) + |Strip(s)|..])
    ensures Strip(s) == [] || (!IsSpace(Strip(s)[0]) && !IsSpace(Strip(s)[|Strip(s)| - 1]))
  {
    StripBounds(s);
    LeadingSpacesShape(s);
    TrailingSpacesShape(s[LeadingSpaces(s)..]);
  }

  /** A string strips to nothing exactly when it is all whitespace. */
  lemma StripEmptyIff(s: string)
    ensures Strip(s) == [] <==> AllSpace(s)
  {
    StripShape(s);
    var k := LeadingSpaces(s);
    if Strip(s) == [] {
      forall i | 0 <= i < |s| ensures IsSpace(s[i]) {
        if i < k {
          assert s[..k][i] == s[i];
        } else {
          assert s[k..][i - k] == s[i];
        }
      }
    }
  }

  /** Stripping twice is stripping once. */
  lemma StripIdempotent(s: string)
    ensures Strip(Strip(s)) == Strip(s)
  {
    StripShape(s);
    var r := Strip(s);
    assert LeadingSpaces(r) == 0;
    assert TrailingSpaces(r[LeadingSpaces(r)..]) == 0;
  }

  /** `sep.join(pages)`: the pages in order, with `sep` between consecutive ones. */
  function Join(pages: seq<string>, sep: string): (r: string)
    ensures |pages| >= 1 ==> |r| >= |pages[0]|
    ensures |pages| >= 2 ==> |r| >= |pages[0]| + |sep| + |pages[1]|
    decreases |pages|
  {
    if |pages| == 0 then ""
    else if |pages| == 1 then pages[0]
    else pages[0] + sep + Join(pages[1..], sep)
  }

  /** With a non-empty separator the joined text is empty exactly when there is no page,
      or a single empty page: two empty pages already join to the separator itself. */
  lemma {:induction false} JoinEmptyIff(pages: seq<string>, sep: string)
    requires sep != ""
    ensures Join(pages, sep) == "" <==> pages == [] || pages == [""]
  {
    if |pages| >= 2 {
      assert |Join(pages, sep)| >= |sep|;
    }
  }

  const UpperLetters := "ABCDEFGHIJKLMNOPQRSTUVWXYZ"
  const LowerLetters := "abcdefghijklmnopqrstuvwxyz"

  /** Letter `n` of each alphabet is `n` code points after its first letter. */
  lemma AlphabetPositions()
    ensures |UpperLetters| == 26 && |LowerLetters| == 26
    ensures forall n :: 0 <= n < 26 ==> UpperLetters[n] as int == 'A' as int + n
    ensures forall n :: 0 <= n < 26 ==> LowerLetters[n] as int == 'a' as int + n
  {
  }

  /** `str.lower()` on one character, for the ASCII letters only: the upper-case letter at
      position `n` of the alphabet becomes the lower-case letter at position `n`. */
  function LowerChar(c: char): (d: char)
    ensures forall n :: 0 <= n < 26 && c == UpperLetters[n] ==> d == LowerLetters[n]
    ensures c !in UpperLetters ==> d == c
    ensures d !in UpperLetters
  {
    AlphabetPositions();
    if 'A' <= c <= 'Z' then (c as int + 32) as char else c
  }

  /** `s.lower()`, for the ASCII letters only: no upper-case letter is left, and every other
      character is kept where it was. */
  function Lower(s: string): (r: string)
    ensures |r| == |s|
    ensures forall i :: 0 <= i < |r| ==> r[i] !in UpperLetters
    ensures forall i :: 0 <= i < |s| && s[i] !in UpperLetters ==> r[i] == s[i]
    ensures forall i, n :: 0 <= i < |s| && 0 <= n < 26 && s[i] == UpperLetters[n] ==> r[i] == LowerLetters[n]
  {
    seq(|s|, i requires 0 <= i < |s| => LowerChar(s[i]))
  }

  /** Lower-casing twice is lower-casing once. */
  lemma LowerIdempotent(s: string)
    ensures Lower(Lower(s)) == Lower(s)
  {
  }

  /** Lower-casing commutes with taking a slice. */
  lemma LowerSlice(s: string, i: nat, j: nat)
    requires i <= j <= |s|
    ensures Lower(s[i..j]) == Lower(s)[i..j]
  {
  }
}
