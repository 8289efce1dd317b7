/**
 * The lexical matcher (`detect_fasttext`, ru.py:49-55): the text is cleaned,
 * then every non-empty term of the store is tested for occurring as a
 * substring of the cleaned text, and each hit is appended to a list.
 */
module Matcher {
  import opened Normalizer

  /** Python's `w in s` on strings: `w` starts at some position of `s`. */
  function Occurs(w: string, s: string): bool
    decreases |s|
  {
    w <= s || (s != [] && Occurs(w, s[1..]))
  }

  /** `w in s` holds exactly when some suffix of `s` starts with `w`. */
  lemma {:induction false} OccursAt(w: string, s: string)
    ensures Occurs(w, s) <==> exists i :: 0 <= i <= |s| && w <= s[i..]
    decreases |s|
  {
    if s != [] {
      OccursAt(w, s[1..]);
      if exists i :: 0 <= i <= |s| && w <= s[i..] {
        var i :| 0 <= i <= |s| && w <= s[i..];
        if i > 0 {
          assert s[1..][i - 1..] == s[i..];
        }
      }
      if Occurs(w, s[1..]) {
        var i :| 0 <= i <= |s[1..]| && w <= s[1..][i..];
        assert s[1..][i..] == s[i + 1..];
      }
    } else {
      assert s[0..] == s;
    }
  }

  /** A string that occurs in `s` is made of characters of `s`. */
  lemma {:induction false} OccursCharsIn(w: string, s: string)
    requires Occurs(w, s)
    ensures forall c :: c in w ==> c in s
    decreases |s|
  {
    if w <= s {
      forall c | c in w ensures c in s {
        var k :| 0 <= k < |w| && w[k] == c;
        assert s[k] == c;
      }
    } else {
      OccursCharsIn(w, s[1..]);
      assert forall c :: c in s[1..] ==> c in s;
    }
  }

  /** A string whose first character is nowhere in `s` does not occur in `s`. */
  lemma {:induction false} FirstCharAbsent(w: string, s: string)
    requires w != [] && w[0] !in s
    ensures !Occurs(w, s)
    decreases |s|
  {
    if s != [] {
      assert s[0] != w[0];
      FirstCharAbsent(w, s[1..]);
    }
  }

  /** Whatever occurs in text of allowed characters is itself made of allowed characters. */
  lemma OccurrenceIsAllowed(w: string, s: string)
    requires Occurs(w, s) && AllAllowed(s)
    ensures AllAllowed(w)
  {
    OccursCharsIn(w, s);
    forall i | 0 <= i < |w| ensures IsAllowed(w[i]) {
      assert w[i] in w;
    }
  }

  /** The terms the lexical stage reports for `text`: non-empty terms occurring in the cleaned text. */
  function Matches(text: string, terms: set<string>): set<string> {
    set w | w in terms && w != [] && Occurs(w, Clean(text))
  }

  /** No element appears twice. */
  predicate Distinct(s: seq<string>) {
    forall i, j :: 0 <= i < j < |s| ==> s[i] != s[j]
  }

  /**
   * `detect_fasttext`: visits the terms in an unspecified order and collects
   * the hits. The list holds each term of Matches exactly once and nothing else.
   */
  method Detect(text: string, terms: set<string>) returns (detected: seq<string>)
    ensures Distinct(detected)
    ensures forall w :: w in detected <==> w in Matches(text, terms)
    ensures |detected| == |Matches(text, terms)|
  {
    var cleaned := Clean(text);
    detected := [];
    var remaining := terms;
    while remaining != {}
      invariant remaining <= terms
      invariant Distinct(detected)
      invariant forall w :: w in detected <==> w in terms - remaining && w != [] && Occurs(w, cleaned)
      decreases remaining
    {
      var word :| word in remaining;
      if word != [] && Occurs(word, cleaned) {
        detected := detected + [word];
      }
      remaining := remaining - {word};
    }
    DistinctCard(detected);
    assert (set w | w in detected) == Matches(text, terms);
  }

  /** A list without repetitions has as many elements as the set of its elements. */
  lemma {:induction false} DistinctCard(s: seq<string>)
    requires Distinct(s)
    ensures |set w | w in s| == |s|
  {
    if s != [] {
      var init := s[..|s| - 1];
      DistinctCard(init);
      assert (set w | w in s) == (set w | w in init) + {s[|s| - 1]};
      assert s[|s| - 1] !in init;
    }
  }

  /**
   * A term holding a character that cleaning deletes (a Latin letter, a
   * punctuation mark) can never be reported, whatever the text.
   */
  lemma TermWithDeletedCharNeverMatches(text: string, terms: set<string>, w: string, k: nat)
    requires k < |w| && !IsAllowed(w[k])
    ensures w !in Matches(text, terms)
  {
    if Occurs(w, Clean(text)) {
      OccurrenceIsAllowed(w, Clean(text));
    }
  }

  /** Text with no allowed character yields no match. */
  lemma NothingAllowedNoMatch(text: string, terms: set<string>)
    requires forall i :: 0 <= i < |text| ==> !IsAllowed(text[i])
    ensures Matches(text, terms) == {}
  {
    CleanEmpty(text);
  }

  /** Cleaning text made only of deleted characters gives the empty string. */
  lemma {:induction false} CleanEmpty(text: string)
    requires forall i :: 0 <= i < |text| ==> !IsAllowed(text[i])
    ensures Clean(text) == []
  {
    if text != [] {
      CleanEmpty(text[1..]);
    }
  }

  /**
   * Matching is against the cleaned text: inserting a deleted character (say
   * punctuation between the syllables of a term) does not change the matches.
   */
  lemma InsertedDeletedCharIsIgnored(a: string, c: char, b: string, terms: set<string>)
    requires !IsAllowed(c)
    ensures Matches(a + [c] + b, terms) == Matches(a + b, terms)
  {
    DisallowedIsInvisible(a, c, b);
  }

  /** On text that cleaning leaves alone, the matches are the terms occurring in the raw text. */
  lemma MatchesOnCleanText(text: string, terms: set<string>)
    requires AllAllowed(text)
    ensures Matches(text, terms) == set w | w in terms && w != [] && Occurs(w, text)
  {
    CleanFixpoint(text);
  }

  /** A larger term store reports at least the same matches. */
  lemma MatchesMonotone(text: string, terms: set<string>, more: set<string>)
    requires terms <= more
    ensures Matches(text, terms) <= Matches(text, more)
  {
  }
}
