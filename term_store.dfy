/**
 * The lexical term store (`load_badwords_from_txt`, ru.py:33-41): every line of
 * the term file is stripped of surrounding whitespace, cut at its first comma,
 * and the part before the comma is kept as a term when it is non-empty.
 * Reading the file is left to the caller; the model parses a sequence of lines.
 */
module TermStore {
  import opened Normalizer

  /** `s` without its leading whitespace. */
  function StripLeft(s: string): string {
    if s != [] && IsSpace(s[0]) then StripLeft(s[1..]) else s
  }

  /** `s` without its trailing whitespace. */
  function StripRight(s: string): string {
    if s != [] && IsSpace(s[|s| - 1]) then StripRight(s[..|s| - 1]) else s
  }

  /** Python's `str.strip()`: `s` without leading and trailing whitespace. */
  function Strip(s: string): string {
    StripRight(StripLeft(s))
  }

  /** `s.split(",")[0]`: the text before the first comma, or all of `s` when it has none. */
  function FirstField(s: string): string {
    if s == [] || s[0] == ',' then [] else [s[0]] + FirstField(s[1..])
  }

  /** StripLeft removes exactly the longest whitespace prefix. */
  lemma {:induction false} StripLeftSpec(s: string)
    ensures |StripLeft(s)| <= |s|
    ensures StripLeft(s) == s[|s| - |StripLeft(s)|..]
    ensures forall k :: 0 <= k < |s| - |StripLeft(s)| ==> IsSpace(s[k])
    ensures StripLeft(s) != [] ==> !IsSpace(StripLeft(s)[0])
  {
    if s != [] && IsSpace(s[0]) {
      var t := s[1..];
      StripLeftSpec(t);
      var r := StripLeft(t);
      assert StripLeft(s) == r;
      assert t[|t| - |r|..] == s[|s| - |r|..];
      forall k | 0 <= k < |s| - |r| ensures IsSpace(s[k]) {
        if k > 0 {
          assert s[k] == t[k - 1];
        }
      }
    }
  }

  /** StripRight removes exactly the longest whitespace suffix. */
  lemma {:induction false} StripRightSpec(s: string)
    ensures StripRight(s) <= s
    ensures forall k :: |StripRight(s)| <= k < |s| ==> IsSpace(s[k])
    ensures StripRight(s) != [] ==> !IsSpace(StripRight(s)[|StripRight(s)| - 1])
  {
    if s != [] && IsSpace(s[|s| - 1]) {
      var t := s[..|s| - 1];
      StripRightSpec(t);
      var r := StripRight(t);
      assert StripRight(s) == r;
      forall k | |r| <= k < |s| ensures IsSpace(s[k]) {
        if k < |s| - 1 {
          assert s[k] == t[k];
        }
      }
    }
  }

  /**
   * Strip returns the slice of `s` between its leading and trailing whitespace:
   * empty exactly when `s` is all whitespace, otherwise starting and ending
   * with non-whitespace.
   */
  lemma StripSpec(s: string)
    ensures var r := Strip(s);
      && (r == [] <==> forall k :: 0 <= k < |s| ==> IsSpace(s[k]))
      && (r != [] ==> !IsSpace(r[0]) && !IsSpace(r[|r| - 1]))
      && exists i :: 0 <= i <= |s| && r <= s[i..]
  {
    var left := StripLeft(s);
    StripLeftSpec(s);
    StripRightSpec(left);
    var r := StripRight(left);
    assert r <= s[|s| - |left|..];
  }

  /**
   * FirstField returns a comma-free prefix of `s` that stops at the first comma
   * or at the end of `s`.
   */
  lemma {:induction false} FirstFieldSpec(s: string)
    ensures var r := FirstField(s);
      && r <= s
      && ',' !in r
      && (|r| < |s| ==> s[|r|] == ',')
  {
    if s != [] && s[0] != ',' {
      FirstFieldSpec(s[1..]);
    }
  }

  /** The candidate term of one line of the term file (`line.strip().split(",")[0]`). */
  function TermOf(line: string): string {
    FirstField(Strip(line))
  }

  /** The non-empty candidate term of `line`, as a set of at most one element. */
  function TermSet(line: string): set<string> {
    if TermOf(line) != [] then {TermOf(line)} else {}
  }

  /** The term set that loading `lines` yields, one line after another. */
  function TermsOf(lines: seq<string>): set<string> {
    if lines == [] then {} else TermsOf(lines[..|lines| - 1]) + TermSet(lines[|lines| - 1])
  }

  /**
   * The loading loop: one pass over the lines, adding each non-empty candidate
   * term to a set.
   */
  method LoadTerms(lines: seq<string>) returns (terms: set<string>)
    ensures terms == TermsOf(lines)
    ensures forall w :: w in terms ==> w != [] && ',' !in w
  {
    terms := {};
    for i := 0 to |lines|
      invariant terms == TermsOf(lines[..i])
    {
      var word := TermOf(lines[i]);
      if word != [] {
        terms := terms + {word};
      }
      assert lines[..i + 1][..i] == lines[..i];
    }
    assert lines[..|lines|] == lines;
    TermsAreCommaFree(lines);
  }

  /**
   * Every loaded term is non-empty and is the first field of some stripped
   * input line; every line whose first field is non-empty contributes that
   * field.
   */
  lemma {:induction false} TermsOfExactly(lines: seq<string>, w: string)
    ensures w in TermsOf(lines) <==> w != [] && exists l :: l in lines && TermOf(l) == w
  {
    if lines != [] {
      var init, last := lines[..|lines| - 1], lines[|lines| - 1];
      TermsOfExactly(init, w);
      assert lines == init + [last];
      if w != [] && (exists l :: l in lines && TermOf(l) == w) {
        var l :| l in lines && TermOf(l) == w;
        if l != last {
          assert l in init;
        }
      }
    }
  }

  /** No loaded term is empty or holds a comma. */
  lemma TermsAreCommaFree(lines: seq<string>)
    ensures forall w :: w in TermsOf(lines) ==> w != [] && ',' !in w
  {
    forall w | w in TermsOf(lines) ensures w != [] && ',' !in w {
      TermsOfExactly(lines, w);
      var l :| l in lines && TermOf(l) == w;
      FirstFieldSpec(Strip(l));
    }
  }

  /** A loaded term never starts with whitespace, since the line was stripped first. */
  lemma {:induction false} TermsStartWithNonSpace(lines: seq<string>)
    ensures forall w :: w in TermsOf(lines) ==> w != [] && !IsSpace(w[0])
  {
    forall w | w in TermsOf(lines) ensures w != [] && !IsSpace(w[0]) {
      TermsOfExactly(lines, w);
      var l :| l in lines && TermOf(l) == w;
      FirstFieldSpec(Strip(l));
      StripSpec(l);
      assert Strip(l)[0] == w[0];
    }
  }

  /**
   * A term ends with whitespace only if its line had a comma after that
   * whitespace: without a comma the term is the whole stripped line.
   */
  lemma NoCommaMeansWholeLine(line: string)
    requires ',' !in Strip(line)
    ensures TermOf(line) == Strip(line)
  {
    FirstFieldSpec(Strip(line));
  }

  /** Whitespace before the comma is kept: `"욕 ,1"` loads as the term `"욕 "`. */
  lemma TrailingSpaceBeforeCommaIsKept()
    ensures TermOf("욕 ,1") == "욕 "
    ensures TermOf("  욕,1\n") == "욕"
  {
    assert Strip("욕 ,1") == "욕 ,1";
    assert FirstField(",1") == [];
    assert FirstField(" ,1") == " ";
    assert StripLeft("  욕,1\n") == "욕,1\n";
    assert StripRight("욕,1\n") == "욕,1";
  }

  /** A repeated line adds nothing: duplicates collapse into one term. */
  lemma DuplicateLineCollapses(lines: seq<string>, l: string)
    requires l in lines
    ensures TermsOf(lines + [l]) == TermsOf(lines)
  {
    assert (lines + [l])[..|lines|] == lines;
    TermsOfExactly(lines, TermOf(l));
  }

  /** The loaded set depends on which lines occur, not on their order or repetition. */
  lemma TermsDependOnLineSetOnly(lines: seq<string>, other: seq<string>)
    requires forall l :: l in lines <==> l in other
    ensures TermsOf(lines) == TermsOf(other)
  {
    forall w ensures w in TermsOf(lines) <==> w in TermsOf(other) {
      TermsOfExactly(lines, w);
      TermsOfExactly(other, w);
    }
  }
}
