/** String helpers: concatenation of a list of fragments, and the ASCII
    case folding that HTML applies to some attribute values in selectors. */
module Text {

  /** The concatenation of `ss` in order, as `Array.prototype.join('')`
      produces it and as repeated `+=` on an accumulator builds it. */
  function Concat(ss: seq<string>): string
  {
    if |ss| == 0 then "" else Concat(ss[..|ss| - 1]) + ss[|ss| - 1]
  }

  /** Concatenation distributes over sequence append. */
  lemma {:induction false} ConcatAppend(a: seq<string>, b: seq<string>)
    ensures Concat(a + b) == Concat(a) + Concat(b)
    decreases |b|
  {
    if |b| == 0 {
      assert a + b == a;
    } else {
      var b' := b[..|b| - 1];
      assert (a + b)[..|a + b| - 1] == a + b';
      ConcatAppend(a, b');
    }
  }

  /** Appending one fragment to the list appends its text to the result. */
  lemma ConcatSnoc(ss: seq<string>, s: string)
    ensures Concat(ss + [s]) == Concat(ss) + s
  {
    assert (ss + [s])[..|ss|] == ss;
  }

  /** One more fragment of a list appends its text. */
  lemma ConcatStep(f: seq<string>, i: nat)
    requires i < |f|
    ensures Concat(f[..i + 1]) == Concat(f[..i]) + f[i]
  {
    assert f[..i + 1][..i] == f[..i];
  }

  /** Four more fragments of a list append their texts in order. */
  lemma ConcatFourSteps(f: seq<string>, i: nat)
    requires i + 4 <= |f|
    ensures Concat(f[..i + 4]) == Concat(f[..i]) + f[i] + f[i + 1] + f[i + 2] + f[i + 3]
  {
    ConcatStep(f, i);
    ConcatStep(f, i + 1);
    ConcatStep(f, i + 2);
    ConcatStep(f, i + 3);
  }

  /** ASCII lower-casing of one character; every other character is kept. */
  function AsciiLower(c: char): char
  {
    if 'A' <= c <= 'Z' then (c as int + 32) as char else c
  }

  /** ASCII case-insensitive equality of two strings. */
  predicate EqualsIgnoringAsciiCase(a: string, b: string)
  {
    |a| == |b| && forall i :: 0 <= i < |a| ==> AsciiLower(a[i]) == AsciiLower(b[i])
  }
}
