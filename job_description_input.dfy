/**
 * The job description box (Frontend/src/components/JobDescriptionInput.tsx): its word and
 * character counters, and the buttons that fill in the sample description or clear the box.
 * The text lives in the parent as `jobDescription`; `JobDescriptionBox.value` stands for it.
 */
module JobDescriptionInput {
  import Text

  /** The first index at or after `from` holding white space, or |s|. */
  function WhitespaceIndex(s: string, from: nat): (k: nat)
    requires from <= |s|
    ensures from <= k <= |s|
    ensures k < |s| ==> Text.IsWhitespace(s[k])
    ensures forall i :: from <= i < k ==> !Text.IsWhitespace(s[i])
    decreases |s| - from
  {
    if from == |s| || Text.IsWhitespace(s[from]) then from else WhitespaceIndex(s, from + 1)
  }

  /** The first index at or after `from` holding a character that is not white space, or |s|. */
  function WordIndex(s: string, from: nat): (j: nat)
    requires from <= |s|
    ensures from <= j <= |s|
    ensures j < |s| ==> !Text.IsWhitespace(s[j])
    ensures forall i :: from <= i < j ==> Text.IsWhitespace(s[i])
    decreases |s| - from
  {
    if from == |s| || !Text.IsWhitespace(s[from]) then from else WordIndex(s, from + 1)
  }

  /**
   * `split(/\s+/)`: the pieces between maximal runs of white space. A leading or trailing
   * run yields an empty first or last piece.
   */
  function SplitWhitespace(s: string): (pieces: seq<string>)
    ensures |pieces| >= 1
    ensures forall p :: p in pieces ==> forall i :: 0 <= i < |p| ==> !Text.IsWhitespace(p[i])
    decreases |s|
  {
    var k := WhitespaceIndex(s, 0);
    if k == |s| then [s]
    else
      var j := WordIndex(s, k + 1);
      [s[..k]] + SplitWhitespace(s[j..])
  }

  /** `filter(word => word.length > 0)` */
  function NonEmpty(pieces: seq<string>): (words: seq<string>)
    ensures |words| <= |pieces|
    ensures forall w :: w in words <==> w in pieces && w != ""
  {
    if pieces == [] then []
    else (if pieces[0] == "" then [] else [pieces[0]]) + NonEmpty(pieces[1..])
  }

  /**
   * The reference count: a scan that counts each character that starts a word, that is,
   * a character that is not white space and does not follow one that is not.
   */
  function RunsFrom(s: string, inWord: bool): nat {
    if s == [] then 0
    else if Text.IsWhitespace(s[0]) then RunsFrom(s[1..], false)
    else (if inWord then 0 else 1) + RunsFrom(s[1..], true)
  }

  /** The number of maximal runs of characters that are not white space. */
  function WordRuns(s: string): nat {
    RunsFrom(s, false)
  }

  lemma {:induction false} SkipWord(s: string, i: nat, k: nat, inWord: bool)
    requires i < k <= |s|
    requires forall t :: i <= t < k ==> !Text.IsWhitespace(s[t])
    ensures RunsFrom(s[i..], inWord) == (if inWord then 0 else 1) + RunsFrom(s[k..], true)
    decreases k - i
  {
    assert s[i..][1..] == s[i + 1..];
    if i + 1 < k {
      SkipWord(s, i + 1, k, true);
    }
  }

  lemma {:induction false} SkipSpace(s: string, i: nat, j: nat, inWord: bool)
    requires i < j <= |s|
    requires forall t :: i <= t < j ==> Text.IsWhitespace(s[t])
    ensures RunsFrom(s[i..], inWord) == RunsFrom(s[j..], false)
    decreases j - i
  {
    assert s[i..][1..] == s[i + 1..];
    if i + 1 < j {
      SkipSpace(s, i + 1, j, false);
    }
  }

  lemma NonEmptyCons(p: string, rest: seq<string>)
    ensures NonEmpty([p] + rest) == (if p == "" then [] else [p]) + NonEmpty(rest)
  {
    assert ([p] + rest)[1..] == rest;
  }

  /** A text without white space is one run, or none when it is empty. */
  lemma SingleRun(s: string)
    requires forall t :: 0 <= t < |s| ==> !Text.IsWhitespace(s[t])
    ensures WordRuns(s) == (if s == [] then 0 else 1)
  {
    if s != [] {
      SkipWord(s, 0, |s|, false);
      assert s[0..] == s;
      assert s[|s|..] == [];
    }
  }

  /** The runs of a text are its first word, if any, and the runs after the first white-space gap. */
  lemma RunsAfterGap(s: string, k: nat, j: nat)
    requires k < j <= |s|
    requires forall t :: 0 <= t < k ==> !Text.IsWhitespace(s[t])
    requires forall t :: k <= t < j ==> Text.IsWhitespace(s[t])
    ensures WordRuns(s) == (if k > 0 then 1 else 0) + WordRuns(s[j..])
  {
    assert s[0..] == s;
    if k > 0 {
      SkipWord(s, 0, k, false);
      SkipSpace(s, k, j, true);
    } else {
      SkipSpace(s, 0, j, false);
    }
  }

  /** Counting the non-empty pieces of the split is counting the runs. */
  lemma {:induction false} SplitCountsRuns(s: string)
    ensures |NonEmpty(SplitWhitespace(s))| == WordRuns(s)
    decreases |s|
  {
    var k := WhitespaceIndex(s, 0);
    if k == |s| {
      assert SplitWhitespace(s) == [s];
      NonEmptyCons(s, []);
      SingleRun(s);
    } else {
      var j := WordIndex(s, k + 1);
      var rest := SplitWhitespace(s[j..]);
      assert SplitWhitespace(s) == [s[..k]] + rest;
      NonEmptyCons(s[..k], rest);
      assert |NonEmpty([s[..k]] + rest)| == (if k > 0 then 1 else 0) + |NonEmpty(rest)|;
      RunsAfterGap(s, k, j);
      SplitCountsRuns(s[j..]);
    }
  }

  lemma {:induction false} RunsIgnoreTrailingSpace(x: string, w: string, inWord: bool)
    requires Text.AllWhitespace(w)
    ensures RunsFrom(x + w, inWord) == RunsFrom(x, inWord)
    decreases |x| + |w|
  {
    if x == [] {
      assert x + w == w;
      if w != [] {
        assert w[1..] + [] == w[1..];
        RunsIgnoreTrailingSpace([], w[1..], false);
        assert [] + w[1..] == w[1..];
      }
    } else {
      assert (x + w)[1..] == x[1..] + w;
      RunsIgnoreTrailingSpace(x[1..], w, Text.IsWhitespace(x[0]) == false);
    }
  }

  lemma RunsOfTrimStart(v: string)
    ensures WordRuns(Text.TrimStart(v)) == WordRuns(v)
  {
    var t := Text.TrimStart(v);
    var n := |v| - |t|;
    if n > 0 {
      SkipSpace(v, 0, n, false);
      assert v[0..] == v;
      assert v[n..] == t;
    }
  }

  lemma RunsOfTrimEnd(t: string)
    ensures WordRuns(Text.TrimEnd(t)) == WordRuns(t)
  {
    var u := Text.TrimEnd(t);
    var w := t[|u|..];
    assert t == u + w;
    assert Text.AllWhitespace(w) by {
      forall i | 0 <= i < |w| ensures Text.IsWhitespace(w[i]) {
        assert w[i] == t[|u| + i];
      }
    }
    RunsIgnoreTrailingSpace(u, w, false);
  }

  /** Trimming does not change the number of runs. */
  lemma RunsOfTrim(v: string)
    ensures WordRuns(Text.Trim(v)) == WordRuns(v)
  {
    assert Text.Trim(v) == Text.TrimEnd(Text.TrimStart(v));
    RunsOfTrimStart(v);
    RunsOfTrimEnd(Text.TrimStart(v));
  }

  /** `wordCount`: the number of words in the box, the maximal runs of non-white-space characters. */
  function WordCount(v: string): (n: nat)
    ensures n == WordRuns(v)
  {
    SplitCountsRuns(Text.Trim(v));
    RunsOfTrim(v);
    |NonEmpty(SplitWhitespace(Text.Trim(v)))|
  }

  /** `charCount`: the length of the text (a count of code points here, see README). */
  function CharCount(v: string): nat {
    |v|
  }

  /** A scan sees no run exactly when the text is all white space. */
  lemma {:induction false} NoRunsIffBlank(s: string)
    ensures RunsFrom(s, false) == 0 <==> Text.AllWhitespace(s)
  {
    if s != [] {
      NoRunsIffBlank(s[1..]);
      if Text.IsWhitespace(s[0]) {
        assert Text.AllWhitespace(s) <==> Text.AllWhitespace(s[1..]) by {
          if Text.AllWhitespace(s[1..]) {
            forall i | 0 <= i < |s| ensures Text.IsWhitespace(s[i]) {
              if i > 0 { assert s[i] == s[1..][i - 1]; }
            }
          }
        }
      }
    }
  }

  /** Runs are separated by white space, so at most every other character starts one. */
  lemma {:induction false} RunsBound(s: string, inWord: bool)
    ensures RunsFrom(s, inWord) <= (|s| + (if inWord then 0 else 1)) / 2
  {
    if s != [] {
      RunsBound(s[1..], !Text.IsWhitespace(s[0]));
    }
  }

  /** An empty or blank box shows 0 words, and only such a box does. */
  lemma WordCountZeroIffBlank(v: string)
    ensures WordCount(v) == 0 <==> Text.AllWhitespace(v)
  {
    NoRunsIffBlank(v);
  }

  /** The word count never exceeds half the character count, rounded up. */
  lemma WordCountBound(v: string)
    ensures WordCount(v) <= (CharCount(v) + 1) / 2
    ensures WordCount(v) <= CharCount(v)
  {
    RunsBound(v, false);
  }

  /** White space added around the text does not change the word count. */
  lemma WordCountIgnoresPadding(w1: string, v: string, w2: string)
    requires Text.AllWhitespace(w1) && Text.AllWhitespace(w2)
    ensures WordCount(w1 + v + w2) == WordCount(v)
  {
    Text.TrimIgnoresPadding(w1, v, w2);
    RunsOfTrim(w1 + v + w2);
    RunsOfTrim(v);
  }

  /** The `maxLength` of the text area. */
  const MaxLength: nat := 5000

  const SampleJobDescription: string :=
    "We are seeking a Senior Software Engineer with 5+ years of experience in JavaScript, React, Node.js, and cloud technologies. The ideal candidate will have:\n" +
    "\n" +
    "\U{2022} Strong proficiency in JavaScript/TypeScript, React, and modern frontend frameworks\n" +
    "\U{2022} Experience with Node.js, Express, and RESTful APIs\n" +
    "\U{2022} Knowledge of cloud platforms (AWS, Azure, or GCP)\n" +
    "\U{2022} Familiarity with databases (MongoDB, PostgreSQL)\n" +
    "\U{2022} Experience with version control systems (Git)\n" +
    "\U{2022} Strong problem-solving skills and attention to detail\n" +
    "\U{2022} Bachelor's degree in Computer Science or related field\n" +
    "\n" +
    "Responsibilities include developing scalable web applications, collaborating with cross-functional teams, code review, and mentoring junior developers."

  /** The sample fits the text area. */
  lemma SampleFits()
    ensures CharCount(SampleJobDescription) <= MaxLength
  {
  }

  class JobDescriptionBox {
    var value: string

    constructor ()
      ensures value == ""
    {
      value := "";
    }

    /** The Clear button is shown only while the box holds text. */
    function ShowsClear(): (shown: bool)
      reads this
      ensures shown <==> |value| > 0
    {
      value != ""
    }

    /** `handleChange`: the parent takes the text area's new value. */
    method HandleChange(newValue: string)
      modifies this
      ensures value == newValue
    {
      value := newValue;
    }

    /** `handleUseSample` */
    method HandleUseSample()
      modifies this
      ensures value == SampleJobDescription
    {
      value := SampleJobDescription;
    }

    /** `handleClear`: the box is emptied and shows 0 words and 0 characters. */
    method HandleClear()
      modifies this
      ensures value == "" && WordCount(value) == 0 && CharCount(value) == 0
    {
      value := "";
    }
  }
}
