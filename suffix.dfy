/** Side-suffix handling of bone names: "hand.L" is the base name "hand" with the side suffix ".L". */
module Suffix {
  import opened Util

  /** The recognised delimiters `_ . - (space)` that may precede a side letter. */
  predicate IsDelimiter(c: char)
  {
    c == '_' || c == '.' || c == '-' || c == ' '
  }

  /** The recognised side letters: the ASCII letters. */
  predicate IsSuffixLetter(c: char)
  {
    'a' <= c <= 'z' || 'A' <= c <= 'Z'
  }

  /** `s` ends with a delimiter followed by a side letter. */
  predicate HasSideSuffix(s: string)
  {
    |s| >= 2 && IsDelimiter(s[|s| - 2]) && IsSuffixLetter(s[|s| - 1])
  }

  /**
   * The names on which splitting does not index out of range: the last two characters
   * exist, or there is one character and it is not a delimiter (the letter test is then
   * never reached).
   */
  predicate SplitDefined(s: string)
  {
    |s| >= 2 || (|s| == 1 && !IsDelimiter(s[0]))
  }

  /** Splits a name into its base and its side suffix ("" when it has none). */
  function SplitSuffix(s: string): (r: (string, string))
    requires SplitDefined(s)
    ensures r.0 + r.1 == s
    ensures r.1 == [] || (|r.1| == 2 && IsDelimiter(r.1[0]) && IsSuffixLetter(r.1[1]))
    ensures HasSideSuffix(s) ==> |r.1| == 2
  {
    if |s| >= 2 && IsDelimiter(s[|s| - 2]) && IsSuffixLetter(s[|s| - 1]) then
      (s[..|s| - 2], s[|s| - 2..])
    else
      (s, "")
  }

  /** The side letter of a name, if it has a side suffix. */
  function GetSuffixLetter(s: string): (r: Option<char>)
    requires SplitDefined(s)
    ensures r.Some? <==> HasSideSuffix(s)
    ensures r.Some? ==> r.value == s[|s| - 1] && IsSuffixLetter(r.value)
  {
    var (_, suffix) := SplitSuffix(s);
    if suffix != [] then Some(suffix[1]) else None
  }

  /** `name` with the side `letter` appended after a dot; an empty letter leaves `name` alone. */
  function Suffixed(name: string, letter: string): (r: string)
    ensures StartsWith(r, name)
    ensures letter == "" ==> r == name
    ensures letter != "" ==> EndsWith(r, letter) && |r| == |name| + 1 + |letter|
  {
    if letter != "" then name + "." + letter else name
  }

  /** Suffixing with a side letter and splitting again gives back the name and the suffix. */
  lemma SuffixedRoundTrip(name: string, c: char)
    requires IsSuffixLetter(c)
    ensures SplitDefined(Suffixed(name, [c]))
    ensures SplitSuffix(Suffixed(name, [c])) == (name, ['.', c])
    ensures GetSuffixLetter(Suffixed(name, [c])) == Some(c)
  {
    var s := Suffixed(name, [c]);
    assert s == name + ['.', c];
    assert s[..|s| - 2] == name;
    assert s[|s| - 2..] == ['.', c];
  }

  /** Two names suffixed with the same letter collide only when the names are equal. */
  lemma SuffixedInjective(a: string, b: string, letter: string)
    requires Suffixed(a, letter) == Suffixed(b, letter)
    ensures a == b
  {
    if letter != "" {
      var s := Suffixed(a, letter);
      assert |a| == |b|;
      assert a == s[..|a|] == b;
    }
  }

  /** A name without a side suffix is split into itself and nothing. */
  lemma SplitUnsuffixed(s: string)
    requires SplitDefined(s) && !HasSideSuffix(s)
    ensures SplitSuffix(s) == (s, "")
    ensures GetSuffixLetter(s) == None
  {
  }
}
