/** The `slugify` hook: spaces become hyphens, then the string is lower-cased (ASCII case mapping). */
module Slug {

  predicate IsAsciiUpper(c: char) {
    'A' <= c <= 'Z'
  }

  /** ASCII lower-casing of one character; every other character is left alone. */
  function LowerChar(c: char): char {
    if IsAsciiUpper(c) then (c as int + 32) as char else c
  }

  /** `str.lower()`, restricted to ASCII case mapping. */
  function Lower(s: string): string {
    seq(|s|, i requires 0 <= i < |s| => LowerChar(s[i]))
  }

  /** `str.replace(from, to)` for a one-character pattern and replacement. */
  function Replace(s: string, from: char, to: char): string {
    seq(|s|, i requires 0 <= i < |s| => if s[i] == from then to else s[i])
  }

  function Slugify(s: string): string {
    Lower(Replace(s, ' ', '-'))
  }

  /** Slugify works character by character: a space becomes '-', an ASCII capital its small letter,
      and every other character is kept. The length never changes. */
  lemma SlugifyPointwise(s: string)
    ensures |Slugify(s)| == |s|
    ensures forall i :: 0 <= i < |s| && s[i] == ' ' ==> Slugify(s)[i] == '-'
    ensures forall i :: 0 <= i < |s| && IsAsciiUpper(s[i]) ==> Slugify(s)[i] == (s[i] as int + 32) as char
    ensures forall i :: 0 <= i < |s| && s[i] != ' ' && !IsAsciiUpper(s[i]) ==> Slugify(s)[i] == s[i]
  {
  }

  /** What slugify returns holds neither a space nor an ASCII capital. */
  lemma SlugifyNormalises(s: string)
    ensures forall i :: 0 <= i < |Slugify(s)| ==> Slugify(s)[i] != ' ' && !IsAsciiUpper(Slugify(s)[i])
  {
  }

  /** A string is left unchanged by slugify exactly when it has no space and no ASCII capital. */
  lemma SlugifyFixedPoint(s: string)
    ensures Slugify(s) == s <==> forall i :: 0 <= i < |s| ==> s[i] != ' ' && !IsAsciiUpper(s[i])
  {
    if forall i :: 0 <= i < |s| ==> s[i] != ' ' && !IsAsciiUpper(s[i]) {
      assert forall i :: 0 <= i < |s| ==> Slugify(s)[i] == s[i];
    } else {
      SlugifyNormalises(s);
    }
  }

  lemma SlugifyIdempotent(s: string)
    ensures Slugify(Slugify(s)) == Slugify(s)
  {
    SlugifyNormalises(s);
    SlugifyFixedPoint(Slugify(s));
  }

  /** The slug value of the example form is already hyphenated; only its case changes. */
  lemma SlugifyExample()
    ensures Slugify("POST-EXAMPLE") == "post-example"
  {
  }

  /** A space in the input gives the same slug. */
  lemma SlugifySpacedExample()
    ensures Slugify("POST EXAMPLE") == "post-example"
  {
    var s, t := "POST EXAMPLE", "post-example";
    assert forall i :: 0 <= i < |s| ==> Slugify(s)[i] == t[i];
  }
}
