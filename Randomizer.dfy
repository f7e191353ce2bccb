/** Random test input: words of letters. */
module Randomizer {
  import opened Strings
  import ValidationUtils

  const MIN_CODE_POINT: int := 65
  const MAX_CODE_POINT: int := 122
  const WORD_LENGTH: nat := 10

  /** The code points generateWords keeps: A-Z and a-z (91..96 lie between them and are skipped). */
  predicate IsLetterCode(codePoint: int)
  {
    MIN_CODE_POINT <= codePoint <= MAX_CODE_POINT && (codePoint < 91 || codePoint > 96)
  }

  predicate IsLetter(c: char)
  {
    ('A' <= c <= 'Z') || ('a' <= c <= 'z')
  }

  /** A generated word: exactly ten letters. */
  predicate IsWord(w: string)
  {
    |w| == WORD_LENGTH && forall i :: 0 <= i < |w| ==> IsLetter(w[i])
  }

  /** The number of words produced: the requested number if it is 1..10, else 1. */
  function WordCount(numWords: int): (r: nat)
    ensures 1 <= r <= 10
    ensures 1 <= numWords <= 10 ==> r == numWords
  {
    if numWords < 1 || numWords > 10 then 1 else numWords
  }

  /**
   * generateWords: WordCount(numWords) random words of ten letters separated by single spaces.
   * A drawn code point outside the letters is drawn again, which the model folds into one draw.
   */
  method GenerateWords(numWords: int) returns (r: string, ghost words: seq<string>)
    ensures |words| == WordCount(numWords) && forall k :: 0 <= k < |words| ==> IsWord(words[k])
    ensures r == Join(words, ' ')
    ensures |r| == 11 * WordCount(numWords) - 1
    ensures |ValidationUtils.JavaSplitWhitespace(r)| == WordCount(numWords)
  {
    var n := numWords;
    if n < 1 || n > 10 {
      n := 1;
    }
    var builder := "";
    words := [];
    var i := 0;
    while i < n
      invariant 0 <= i <= n && |words| == i
      invariant forall k :: 0 <= k < i ==> IsWord(words[k])
      invariant builder == JoinTerminated(words, ' ')
    {
      var word := "";
      var charPos := 0;
      while charPos < WORD_LENGTH
        invariant 0 <= charPos <= WORD_LENGTH && |word| == charPos
        invariant forall k :: 0 <= k < |word| ==> IsLetter(word[k])
      {
        assert IsLetterCode(MIN_CODE_POINT);
        var codePoint: int :| IsLetterCode(codePoint);
        assert IsLetterCode(codePoint);
        var c := codePoint as char;
        assert IsLetter(c) by {
          assert c as int == codePoint && 'A' as int == 65 && 'Z' as int == 90 && 'a' as int == 97 && 'z' as int == 122;
        }
        word := word + [c];
        charPos := charPos + 1;
      }
      JoinTerminatedAppend(words, word, ' ');
      builder := builder + word + " ";
      words := words + [word];
      i := i + 1;
    }
    forall k | 0 <= k < |words| ensures words[k] != [] && IsTrimmed(words[k]) {
      assert IsLetter(words[k][0]) && IsLetter(words[k][|words[k]| - 1]);
    }
    TrimmedSpaceTerminatedJoin(words);
    r := Trim(builder);
    JoinedWordsLength(words);
    JoinedWordsSplit(words);
  }

  lemma {:induction false} JoinedWordsLength(words: seq<string>)
    requires words != [] && forall k :: 0 <= k < |words| ==> IsWord(words[k])
    ensures |Join(words, ' ')| == 11 * |words| - 1
  {
    if |words| > 1 {
      JoinedWordsLength(words[1..]);
    }
  }

  /** Splitting the generated text at whitespace gives back the words. */
  lemma {:induction false} JoinedWordsSplit(words: seq<string>)
    requires words != [] && forall k :: 0 <= k < |words| ==> IsWord(words[k])
    ensures ValidationUtils.JavaSplitWhitespace(Join(words, ' ')) == words
  {
    if |words| == 1 {
      assert ValidationUtils.NoWhitespace(words[0]) by {
        forall i | 0 <= i < |words[0]| ensures !ValidationUtils.IsWhitespace(words[0][i]) {
          assert IsLetter(words[0][i]);
        }
      }
    } else {
      PiecesOfJoin(words);
      var s := Join(words, ' ');
      assert !ValidationUtils.NoWhitespace(s) by {
        assert s[|words[0]|] == ' ';
      }
    }
  }

  lemma {:induction false} PiecesOfJoin(words: seq<string>)
    requires words != [] && forall k :: 0 <= k < |words| ==> IsWord(words[k])
    ensures ValidationUtils.Pieces(Join(words, ' ')) == words
  {
    assert ValidationUtils.NoWhitespace(words[0]) by {
      forall i | 0 <= i < |words[0]| ensures !ValidationUtils.IsWhitespace(words[0][i]) {
        assert IsLetter(words[0][i]);
      }
    }
    if |words| > 1 {
      PiecesOfJoin(words[1..]);
      ValidationUtils.PiecesSplit(words[0], Join(words[1..], ' '));
      assert words == [words[0]] + words[1..];
    }
  }
}
