/** `capitalize`, over strings whose first character is ASCII. */
module Utils {

  predicate IsAscii(c: char) {
    (c as int) < 128
  }

  predicate IsLowerAscii(c: char) {
    'a' <= c <= 'z'
  }

  /** `toUpperCase` of one ASCII character: lower-case letters map to upper case, the rest to themselves. */
  function ToUpperAscii(c: char): (u: char)
    requires IsAscii(c)
    ensures IsAscii(u) && !IsLowerAscii(u)
    ensures IsLowerAscii(c) ==> u as int == c as int - 32
    ensures !IsLowerAscii(c) ==> u == c
  {
    if IsLowerAscii(c) then (c as int - 32) as char else c
  }

  /** `str.charAt(0).toUpperCase() + str.slice(1)`. */
  function Capitalize(s: string): (r: string)
    requires s == [] || IsAscii(s[0])
    ensures |r| == |s|
    ensures s != [] ==> r[0] == ToUpperAscii(s[0]) && r[1..] == s[1..]
  {
    if s == [] then "" else [ToUpperAscii(s[0])] + s[1..]
  }

  /** A string is left unchanged exactly when it does not start with a lower-case letter. */
  lemma CapitalizeFixedPoints(s: string)
    requires s == [] || IsAscii(s[0])
    ensures Capitalize(s) == s <==> s == [] || !IsLowerAscii(s[0])
  {
    if s != [] && Capitalize(s) == s {
      assert Capitalize(s)[0] == s[0];
    }
    if s != [] && !IsLowerAscii(s[0]) {
      assert s == [s[0]] + s[1..];
    }
  }

  /** Capitalising twice is capitalising once. */
  lemma CapitalizeIdempotent(s: string)
    requires s == [] || IsAscii(s[0])
    ensures var once := Capitalize(s); (once == [] || IsAscii(once[0])) && Capitalize(once) == once
  {
    var once := Capitalize(s);
    if once != [] {
      CapitalizeFixedPoints(once);
    }
  }

  /** The examples: `""`, `"hello"`, `"world"`, `"a"` and the already capitalised `"Hello"`. */
  lemma CapitalizeExamples()
    ensures Capitalize("") == ""
    ensures Capitalize("hello") == "Hello"
    ensures Capitalize("world") == "World"
    ensures Capitalize("a") == "A"
    ensures Capitalize("Hello") == "Hello"
  {
    assert "Hello" == ['H'] + "Hello"[1..];
  }
}
