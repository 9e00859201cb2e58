/** Plugin-name normalisation.

    A plugin is registered and looked up under the form of its name whose
    first character is upper-cased; the rest of the name is kept as it is.
    Case mapping is ASCII only. */
module Names {

  /** ASCII upper-casing of one character; every other character is kept. */
  function UpperAscii(c: char): char
  {
    if 'a' <= c <= 'z' then (c as int - 32) as char else c
  }

  /** The key under which a plugin name is stored: first character upper-cased,
      the rest kept. */
  function ToUpperCaseFirst(s: string): (r: string)
    ensures |r| == |s|
    ensures |s| > 0 ==> r[1..] == s[1..]
  {
    if s == [] then [] else [UpperAscii(s[0])] + s[1..]
  }

  /** `upper` is the ASCII upper-case form of the lower-case letter `lower`. */
  predicate IsCasePair(lower: char, upper: char)
  {
    'a' <= lower <= 'z' && upper as int == lower as int - 32
  }

  /** `a` and `b` are the same string except, possibly, for the case of an
      ASCII letter in the first position. */
  predicate SameUpToFirstLetterCase(a: string, b: string)
  {
    && |a| == |b|
    && (|a| > 0 ==>
          && a[1..] == b[1..]
          && (a[0] == b[0] || IsCasePair(a[0], b[0]) || IsCasePair(b[0], a[0])))
  }

  /** Normalising twice is normalising once: a stored key is its own key. */
  lemma NormaliseIdempotent(s: string)
    ensures ToUpperCaseFirst(ToUpperCaseFirst(s)) == ToUpperCaseFirst(s)
  {
  }

  /** The first character of the key is the name's first character,
      upper-cased when it is a lower-case ASCII letter. */
  lemma NormaliseFirstLetter(s: string)
    requires |s| > 0
    ensures 'a' <= s[0] <= 'z' ==> IsCasePair(s[0], ToUpperCaseFirst(s)[0])
    ensures !('a' <= s[0] <= 'z') ==> ToUpperCaseFirst(s)[0] == s[0]
  {
  }

  /** Two names give the same key exactly when they differ at most in the
      case of their first letter. */
  lemma SameKeyIffFirstLetterCase(a: string, b: string)
    ensures ToUpperCaseFirst(a) == ToUpperCaseFirst(b) <==> SameUpToFirstLetterCase(a, b)
  {
  }

  /** Only the first letter is folded: "foo" is stored as "Foo", while "FOO"
      stays "FOO", so the two are different keys. */
  lemma OnlyFirstLetterIsFolded()
    ensures ToUpperCaseFirst("foo") == "Foo"
    ensures ToUpperCaseFirst("FOO") == "FOO"
    ensures ToUpperCaseFirst("foo") != ToUpperCaseFirst("FOO")
  {
  }
}
