/**
 * The text normalizer of the serving path (`clean_text`, ru.py:44-46): a single
 * regular-expression substitution that deletes every character outside an
 * allow-list of scripts, digits and whitespace.
 */
module Normalizer {

  /**
   * Python's Unicode whitespace: what `str.isspace()` accepts, what `\s` matches
   * in a `str` pattern and what `str.strip()` removes.
   */
  predicate IsSpace(c: char) {
    var n := c as int;
    || 0x09 <= n <= 0x0D
    || 0x1C <= n <= 0x20
    || n == 0x85 || n == 0xA0 || n == 0x1680
    || 0x2000 <= n <= 0x200A
    || n == 0x2028 || n == 0x2029 || n == 0x202F || n == 0x205F || n == 0x3000
  }

  /** CJK Unified Ideographs (U+4E00..U+9FFF) and Extension A (U+3400..U+4DBF). */
  predicate IsHanja(c: char) {
    0x4E00 <= c as int <= 0x9FFF || 0x3400 <= c as int <= 0x4DBF
  }

  /** Precomposed Hangul syllables, 가 (U+AC00) to 힣 (U+D7A3). */
  predicate IsHangulSyllable(c: char) {
    0xAC00 <= c as int <= 0xD7A3
  }

  /** Hangul compatibility jamo: consonants ㄱ..ㅎ (U+3131..U+314E) and vowels ㅏ..ㅣ (U+314F..U+3163). */
  predicate IsJamo(c: char) {
    0x3131 <= c as int <= 0x314E || 0x314F <= c as int <= 0x3163
  }

  /** ASCII digits only: the class `0-9` is a literal range. */
  predicate IsDigit(c: char) {
    '0' <= c <= '9'
  }

  /** The characters the substitution keeps; everything else is deleted. */
  predicate IsAllowed(c: char) {
    IsHanja(c) || IsHangulSyllable(c) || IsJamo(c) || IsDigit(c) || IsSpace(c)
  }

  /** True when every character of `s` is allowed. */
  predicate AllAllowed(s: string) {
    forall i :: 0 <= i < |s| ==> IsAllowed(s[i])
  }

  /** `r` can be obtained from `t` by deleting characters, the rest keeping their order. */
  predicate IsSubsequence(r: string, t: string)
    decreases |t|
  {
    if r == [] then true
    else if t == [] then false
    else (r[0] == t[0] && IsSubsequence(r[1..], t[1..])) || IsSubsequence(r, t[1..])
  }

  /**
   * `clean_text`: the input with every disallowed character removed. The result
   * holds only allowed characters, keeps every allowed occurrence of the input
   * (same count per allowed character) and is never longer than the input.
   */
  function Clean(t: string): (r: string)
    ensures |r| <= |t|
    ensures AllAllowed(r)
    ensures forall c :: IsAllowed(c) ==> multiset(r)[c] == multiset(t)[c]
  {
    if t == [] then []
    else
      assert t == [t[0]] + t[1..];
      (if IsAllowed(t[0]) then [t[0]] else []) + Clean(t[1..])
  }

  /** The cleaned text is the input with characters deleted, in the input's order. */
  lemma {:induction false} CleanIsSubsequence(t: string)
    ensures IsSubsequence(Clean(t), t)
  {
    if t != [] {
      var rest := Clean(t[1..]);
      CleanIsSubsequence(t[1..]);
      if IsAllowed(t[0]) {
        assert Clean(t) == [t[0]] + rest;
        assert ([t[0]] + rest)[1..] == rest;
      } else {
        assert Clean(t) == rest;
      }
    }
  }

  /** Cleaning distributes over concatenation: each character is judged on its own. */
  lemma {:induction false} CleanAppend(a: string, b: string)
    ensures Clean(a + b) == Clean(a) + Clean(b)
  {
    if a == [] {
      assert a + b == b;
    } else {
      assert (a + b)[0] == a[0];
      assert (a + b)[1..] == a[1..] + b;
      CleanAppend(a[1..], b);
    }
  }

  /** Deleting one disallowed character before cleaning changes nothing. */
  lemma DisallowedIsInvisible(a: string, c: char, b: string)
    requires !IsAllowed(c)
    ensures Clean(a + [c] + b) == Clean(a + b)
  {
    assert Clean([c]) == [] by {
      assert [c][1..] == [];
    }
    CleanAppend(a, [c]);
    assert Clean(a + [c]) == Clean(a);
    CleanAppend(a + [c], b);
    CleanAppend(a, b);
  }

  /** Text is left unchanged by cleaning exactly when all its characters are allowed. */
  lemma {:induction false} CleanFixpoint(t: string)
    ensures Clean(t) == t <==> AllAllowed(t)
  {
    if t != [] && AllAllowed(t) {
      assert AllAllowed(t[1..]) by {
        forall i | 0 <= i < |t[1..]| ensures IsAllowed(t[1..][i]) {
          assert t[1..][i] == t[i + 1];
        }
      }
      CleanFixpoint(t[1..]);
      assert t == [t[0]] + t[1..];
    }
  }

  /** `clean_text` is idempotent. */
  lemma CleanIdempotent(t: string)
    ensures Clean(Clean(t)) == Clean(t)
  {
    CleanFixpoint(Clean(t));
  }
}
