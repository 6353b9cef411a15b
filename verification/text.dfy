/** The two string clean-ups of the pipeline: the caption whitelist applied to
    every caption text (ycsp/pipeline.py:133) and the removal of spaces from the
    video title (ycsp/pipeline.py:88). */
module Text {
  import opened Seqs

  /** First and last Hangul syllable, U+AC00 and U+D7A3: the range `가-힣`. */
  const HangulFirst: char := '\U{AC00}'
  const HangulLast: char := '\U{D7A3}'

  /** The character class `[A-Za-z0-9가-힣 ]`: ASCII letters and digits, the
      Hangul syllables block, and the space character. Ranges compare code
      points, so no case folding and no other digits or letters. */
  predicate IsCaptionChar(c: char) {
    || 'A' <= c <= 'Z'
    || 'a' <= c <= 'z'
    || '0' <= c <= '9'
    || HangulFirst <= c <= HangulLast
    || c == ' '
  }

  /** The caption sanitiser: every character outside the whitelist is deleted
      (not replaced); the kept characters stay in order, with no trimming and
      no collapsing of spaces. */
  function Sanitize(caption: string): (r: string)
    ensures forall i :: 0 <= i < |r| ==> IsCaptionChar(r[i])
    ensures caption == [] ==> r == []
  {
    Filter(caption, IsCaptionChar)
  }

  /** What survives: the result is a subsequence of the caption that holds every
      whitelisted character exactly as often as the caption does. */
  lemma {:induction false} SanitizeContents(caption: string)
    ensures IsSubsequence(Sanitize(caption), caption)
    ensures forall c :: IsCaptionChar(c) ==> multiset(Sanitize(caption))[c] == multiset(caption)[c]
  {
    FilterIsSubsequence(caption, IsCaptionChar);
    FilterCounts(caption, IsCaptionChar);
  }

  /** Sanitising is local to each character: it distributes over concatenation. */
  lemma {:induction false} SanitizeAppend(a: string, b: string)
    ensures Sanitize(a + b) == Sanitize(a) + Sanitize(b)
  {
    FilterAppend(a, b, IsCaptionChar);
  }

  /** A caption is left untouched exactly when all its characters are whitelisted. */
  lemma {:induction false} SanitizeFixpoint(caption: string)
    ensures Sanitize(caption) == caption <==> forall i :: 0 <= i < |caption| ==> IsCaptionChar(caption[i])
  {
    FilterFixpoint(caption, IsCaptionChar);
  }

  /** Sanitising a sanitised caption changes nothing. */
  lemma {:induction false} SanitizeIdempotent(caption: string)
    ensures Sanitize(Sanitize(caption)) == Sanitize(caption)
  {
    FilterIdempotent(caption, IsCaptionChar);
  }

  /** Punctuation goes; Hangul, ASCII letters and digits, and the space stay:
      "한글, a1!" becomes "한글 a1". */
  lemma SanitizeExample()
    ensures Sanitize("\U{D55C}\U{AE00}, a1!") == "\U{D55C}\U{AE00} a1"
  {
  }

  predicate NotSpace(c: char) {
    c != ' '
  }

  /** The title normaliser: deletes every U+0020 space and nothing else, so tabs,
      newlines and other whitespace survive. */
  function NormalizeTitle(title: string): (r: string)
    ensures ' ' !in r
    ensures IsSubsequence(r, title)
    ensures forall c :: c != ' ' ==> multiset(r)[c] == multiset(title)[c]
  {
    FilterIsSubsequence(title, NotSpace);
    FilterCounts(title, NotSpace);
    Filter(title, NotSpace)
  }

  /** Only the space is removed: "a b\tc" becomes "ab\tc". */
  lemma NormalizeTitleKeepsOtherWhitespace()
    ensures NormalizeTitle("a b\tc") == "ab\tc"
  {
  }

  /** A normalised title is normalised already. */
  lemma {:induction false} NormalizeTitleIdempotent(title: string)
    ensures NormalizeTitle(NormalizeTitle(title)) == NormalizeTitle(title)
  {
    FilterIdempotent(title, NotSpace);
  }
}
